/** JavaScript objects used as dictionaries: string keys kept in insertion
    order, an assignment to an existing key replacing its value in place. */
module OrderedMaps {
  import opened Results

  type OMap<V> = seq<(string, V)>

  function Keys<V>(m: OMap<V>): seq<string>
  {
    seq(|m|, i requires 0 <= i < |m| => m[i].0)
  }

  predicate UniqueKeys<V>(m: OMap<V>)
  {
    forall i, j :: 0 <= i < j < |m| ==> m[i].0 != m[j].0
  }

  /** Reading `m[k]`: the value stored under the first occurrence of `k`. */
  function Find<V>(m: OMap<V>, k: string): (r: Option<V>)
    ensures r.None? <==> k !in Keys(m)
    ensures r.Some? ==> (k, r.value) in m
  {
    if |m| == 0 then None
    else if m[0].0 == k then assert Keys(m)[0] == k; Some(m[0].1)
    else
      assert Keys(m) == [m[0].0] + Keys(m[1..]);
      Find(m[1..], k)
  }

  /** `m[k] = v`: replaces the value of an existing key where it stands,
      otherwise appends the key. */
  function Put<V>(m: OMap<V>, k: string, v: V): OMap<V>
  {
    if |m| == 0 then [(k, v)]
    else if m[0].0 == k then [(k, v)] + m[1..]
    else [m[0]] + Put(m[1..], k, v)
  }

  /** After `m[k] = v`, reading `k` gives `v` and every other key reads as before. */
  lemma {:induction false} PutFind<V>(m: OMap<V>, k: string, v: V, k': string)
    ensures Find(Put(m, k, v), k') == if k' == k then Some(v) else Find(m, k')
  {
    if |m| > 0 && m[0].0 != k {
      PutFind(m[1..], k, v, k');
      assert Put(m, k, v)[1..] == Put(m[1..], k, v);
    }
  }

  /** An assignment keeps the key order: a new key goes last. */
  lemma {:induction false} PutKeys<V>(m: OMap<V>, k: string, v: V)
    ensures k in Keys(m) ==> Keys(Put(m, k, v)) == Keys(m)
    ensures k !in Keys(m) ==> Keys(Put(m, k, v)) == Keys(m) + [k]
  {
    if |m| > 0 {
      assert Keys(m) == [m[0].0] + Keys(m[1..]);
      if m[0].0 != k {
        PutKeys(m[1..], k, v);
        assert Keys(Put(m, k, v)) == [m[0].0] + Keys(Put(m[1..], k, v));
      } else {
        assert Keys(Put(m, k, v)) == [k] + Keys(m[1..]);
      }
    }
  }

  /** An assignment never duplicates a key. */
  lemma PutUnique<V>(m: OMap<V>, k: string, v: V)
    requires UniqueKeys(m)
    ensures UniqueKeys(Put(m, k, v))
  {
    PutKeys(m, k, v);
    var r := Put(m, k, v);
    forall i, j | 0 <= i < j < |r| ensures r[i].0 != r[j].0 {
      assert r[i].0 == Keys(r)[i] && r[j].0 == Keys(r)[j];
      if k in Keys(m) {
        assert Keys(m)[i] == m[i].0 && Keys(m)[j] == m[j].0;
      } else if j < |m| {
        assert Keys(m)[i] == m[i].0 && Keys(m)[j] == m[j].0;
      } else {
        assert Keys(m)[i] == m[i].0;
      }
    }
  }

  /** Performs the assignments of `ws` in order. */
  function PutAll<V>(m: OMap<V>, ws: seq<(string, V)>): OMap<V>
    decreases |ws|
  {
    if |ws| == 0 then m else PutAll(Put(m, ws[0].0, ws[0].1), ws[1..])
  }

  /** The value of the last assignment to `k` in `ws`, if any. */
  function LastWrite<V>(ws: seq<(string, V)>, k: string): Option<V>
    decreases |ws|
  {
    if |ws| == 0 then None
    else if ws[|ws| - 1].0 == k then Some(ws[|ws| - 1].1)
    else LastWrite(ws[..|ws| - 1], k)
  }

  lemma {:induction false} LastWriteCons<V>(w: (string, V), ws: seq<(string, V)>, k: string)
    ensures LastWrite([w] + ws, k) == if LastWrite(ws, k).Some? then LastWrite(ws, k)
                                      else if w.0 == k then Some(w.1) else None
    decreases |ws|
  {
    if |ws| > 0 {
      assert ([w] + ws)[..|ws|] == [w] + ws[..|ws| - 1];
      LastWriteCons(w, ws[..|ws| - 1], k);
    }
  }

  /** Last write wins: after a sequence of assignments, a key holds the value
      most recently assigned to it, and keys never assigned are untouched. */
  lemma {:induction false} PutAllLastWins<V>(m: OMap<V>, ws: seq<(string, V)>, k: string)
    ensures Find(PutAll(m, ws), k) == if LastWrite(ws, k).Some? then LastWrite(ws, k) else Find(m, k)
    decreases |ws|
  {
    if |ws| > 0 {
      PutFind(m, ws[0].0, ws[0].1, k);
      PutAllLastWins(Put(m, ws[0].0, ws[0].1), ws[1..], k);
      assert ws == [ws[0]] + ws[1..];
      LastWriteCons(ws[0], ws[1..], k);
    }
  }

  /** Assignments never duplicate a key. */
  lemma {:induction false} PutAllUnique<V>(m: OMap<V>, ws: seq<(string, V)>)
    requires UniqueKeys(m)
    ensures UniqueKeys(PutAll(m, ws))
    decreases |ws|
  {
    if |ws| > 0 {
      PutUnique(m, ws[0].0, ws[0].1);
      PutAllUnique(Put(m, ws[0].0, ws[0].1), ws[1..]);
    }
  }

  lemma PutAllCons<V>(m: OMap<V>, w: (string, V), ws: seq<(string, V)>)
    ensures PutAll(m, [w] + ws) == PutAll(Put(m, w.0, w.1), ws)
  {
    assert ([w] + ws)[1..] == ws;
  }

  /** Two batches of assignments in turn are one batch. */
  lemma {:induction false} PutAllAppend<V>(m: OMap<V>, a: seq<(string, V)>, b: seq<(string, V)>)
    ensures PutAll(PutAll(m, a), b) == PutAll(m, a + b)
    decreases |a|
  {
    if |a| == 0 {
      assert a + b == b;
    } else {
      var m' := Put(m, a[0].0, a[0].1);
      PutAllAppend(m', a[1..], b);
      assert a + b == [a[0]] + (a[1..] + b);
      PutAllCons(m, a[0], a[1..] + b);
    }
  }
}
