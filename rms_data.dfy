/**
 * The accumulator table of the RMS filter, as values.
 *
 * Each datapoint name owns one record holding the number of samples folded
 * in since the last flush and the running sum of their squares. The
 * functions here describe what adding a sample and running a flush pass do
 * to the whole table; the filter class in module Filter is proved against
 * them.
 */
module Rms {
  import opened KeyOrder

  const U32_LIMIT: int := 0x1_0000_0000

  /** An `unsigned int` of the source. */
  newtype u32 = x: int | 0 <= x < U32_LIMIT

  /** A `long` of the source. */
  newtype i64 = x: int | -0x8000_0000_0000_0000 <= x < 0x8000_0000_0000_0000

  /** One accumulator: the sample count and the sum of squares since the last flush. */
  datatype RmsData = RmsData(samples: u32, cumulative: real)

  /** A freshly created record, and the state a flush resets a record to. */
  const Fresh := RmsData(0, 0.0)

  /** `samples++` on an `unsigned int`, which wraps to 0 past its maximum. */
  function Next(s: u32): (r: u32)
    ensures r as int == (s as int + 1) % U32_LIMIT
  {
    if s as int == U32_LIMIT - 1 then 0 else s + 1
  }

  /** The record a name has, counting a name never seen as a fresh record. */
  function Lookup(m: map<string, RmsData>, name: string): RmsData
  {
    if name in m then m[name] else Fresh
  }

  /** Every sum of squares in the table is non-negative. */
  ghost predicate NonNegative(m: map<string, RmsData>)
  {
    forall k :: k in m ==> m[k].cumulative >= 0.0
  }

  /** The table after one sample `v` for `name`. */
  function Added(m: map<string, RmsData>, name: string, v: real): (r: map<string, RmsData>)
    ensures r.Keys == m.Keys + {name}
    ensures r[name].samples as int == (Lookup(m, name).samples as int + 1) % U32_LIMIT
    ensures r[name].cumulative == Lookup(m, name).cumulative + v * v
    ensures forall k :: k in m && k != name ==> r[k] == m[k]
    ensures NonNegative(m) ==> NonNegative(r)
  {
    var before := Lookup(m, name);
    m[name := RmsData(Next(before.samples), before.cumulative + v * v)]
  }

  /** The names whose window is complete under threshold `size`. */
  function Completed(m: map<string, RmsData>, size: u32): set<string>
  {
    set k | k in m && m[k].samples >= size
  }

  /** The table after a flush pass with threshold `size`. */
  function Flushed(m: map<string, RmsData>, size: u32): (r: map<string, RmsData>)
    ensures r.Keys == m.Keys
    ensures forall k :: k in Completed(m, size) ==> r[k] == Fresh
    ensures forall k :: k in m && k !in Completed(m, size) ==> r[k] == m[k]
    ensures NonNegative(m) ==> NonNegative(r)
    ensures size >= 1 ==> Completed(r, size) == {}
  {
    map k | k in m :: if m[k].samples >= size then Fresh else m[k]
  }

  /** A datapoint of an emitted reading; `meanSquare` is the square of the RMS value it carries. */
  datatype Datapoint = Datapoint(name: string, meanSquare: real)

  /** A reading: an asset name and its datapoints. */
  datatype Reading = Reading(assetName: string, datapoints: seq<Datapoint>)

  function NameSet(ps: seq<Datapoint>): set<string>
  {
    set i | 0 <= i < |ps| :: ps[i].name
  }

  lemma NameSetAppend(ps: seq<Datapoint>, d: Datapoint)
    ensures NameSet(ps + [d]) == NameSet(ps) + {d.name}
  {
    forall n | n in NameSet(ps)
      ensures n in NameSet(ps + [d])
    {
      var i :| 0 <= i < |ps| && ps[i].name == n;
      assert (ps + [d])[i].name == n;
    }
    assert (ps + [d])[|ps|].name == d.name;
  }

  predicate StrictlySorted(ps: seq<Datapoint>)
  {
    forall i, j :: 0 <= i < j < |ps| ==> Less(ps[i].name, ps[j].name)
  }

  /**
   * `ps` is what a flush pass over `m` with threshold `size` emits: one
   * datapoint per completed name, in name order, carrying that name's sum of
   * squares divided by the configured size (not by the sample count).
   */
  ghost predicate Emits(ps: seq<Datapoint>, m: map<string, RmsData>, size: u32)
    requires size >= 1
  {
    && StrictlySorted(ps)
    && NameSet(ps) == Completed(m, size)
    && forall i :: 0 <= i < |ps| ==>
         ps[i].name in m && ps[i].meanSquare == m[ps[i].name].cumulative / size as real
  }

  /** A strictly sorted sequence holds no name twice. */
  lemma {:induction false} SortedCount(ps: seq<Datapoint>)
    requires StrictlySorted(ps)
    ensures |NameSet(ps)| == |ps|
    decreases |ps|
  {
    if ps != [] {
      SortedCount(ps[1..]);
      assert NameSet(ps) == {ps[0].name} + NameSet(ps[1..]) by {
        forall n | n in NameSet(ps)
          ensures n in {ps[0].name} + NameSet(ps[1..])
        {
          var i :| 0 <= i < |ps| && ps[i].name == n;
          if i > 0 {
            assert ps[1..][i - 1].name == n;
          }
        }
        forall n | n in NameSet(ps[1..])
          ensures n in NameSet(ps)
        {
          var i :| 0 <= i < |ps[1..]| && ps[1..][i].name == n;
          assert ps[i + 1].name == n;
        }
      }
      if ps[0].name in NameSet(ps[1..]) {
        var i :| 0 <= i < |ps[1..]| && ps[1..][i].name == ps[0].name;
        assert Less(ps[0].name, ps[i + 1].name);
        LessIrreflexive(ps[0].name);
      }
    }
  }

  /** Two strictly sorted sequences over the same names list the same names. */
  lemma {:induction false} SortedUnique(ps: seq<Datapoint>, qs: seq<Datapoint>)
    requires StrictlySorted(ps) && StrictlySorted(qs)
    requires NameSet(ps) == NameSet(qs)
    ensures |ps| == |qs|
    ensures forall i :: 0 <= i < |ps| ==> ps[i].name == qs[i].name
    decreases |ps|
  {
    if ps == [] {
      SortedCount(qs);
    } else {
      assert ps[0].name in NameSet(ps);
      var j :| 0 <= j < |qs| && qs[j].name == ps[0].name;
      assert qs[0].name in NameSet(qs);
      var i :| 0 <= i < |ps| && ps[i].name == qs[0].name;
      if i > 0 && j > 0 {
        LessTransitive(ps[0].name, qs[0].name, ps[0].name);
        LessIrreflexive(ps[0].name);
      } else if i > 0 {
        LessIrreflexive(ps[0].name);
      } else if j > 0 {
        LessIrreflexive(qs[0].name);
      }
      assert ps[0].name == qs[0].name;
      DropFirst(ps);
      DropFirst(qs);
      SortedUnique(ps[1..], qs[1..]);
    }
  }

  /** Dropping the head of a strictly sorted sequence removes exactly its name. */
  lemma DropFirst(ps: seq<Datapoint>)
    requires StrictlySorted(ps) && ps != []
    ensures StrictlySorted(ps[1..])
    ensures NameSet(ps[1..]) == NameSet(ps) - {ps[0].name}
  {
    forall n | n in NameSet(ps) - {ps[0].name}
      ensures n in NameSet(ps[1..])
    {
      var i :| 0 <= i < |ps| && ps[i].name == n;
      assert ps[1..][i - 1].name == n;
    }
    forall n | n in NameSet(ps[1..])
      ensures n in NameSet(ps) - {ps[0].name}
    {
      var i :| 0 <= i < |ps[1..]| && ps[1..][i].name == n;
      assert ps[i + 1].name == n;
      assert Less(ps[0].name, n);
      LessIrreflexive(n);
    }
  }

  /**
   * A flush pass emits exactly one datapoint per completed name, and what it
   * emits is fully determined by the table and the threshold.
   */
  lemma EmitsDetermined(ps: seq<Datapoint>, qs: seq<Datapoint>, m: map<string, RmsData>, size: u32)
    requires size >= 1
    requires Emits(ps, m, size) && Emits(qs, m, size)
    ensures |ps| == |Completed(m, size)|
    ensures ps == qs
  {
    SortedCount(ps);
    SortedUnique(ps, qs);
  }

  /**
   * Part way through a flush pass over `before`: the names in `remaining`
   * are still to be visited (they all come after the names visited so far),
   * the completed names already visited are reset in `m`, and `ps` holds
   * their datapoints in the order visited.
   */
  ghost predicate Scanned(before: map<string, RmsData>, size: u32, remaining: set<string>,
                          m: map<string, RmsData>, ps: seq<Datapoint>)
    requires size >= 1
  {
    && remaining <= before.Keys
    && m.Keys == before.Keys
    && (forall k :: k in m ==>
          m[k] == (if k !in remaining && k in Completed(before, size) then Fresh else before[k]))
    && StrictlySorted(ps)
    && (forall i, k :: 0 <= i < |ps| && k in remaining ==> Less(ps[i].name, k))
    && NameSet(ps) == Completed(before, size) - remaining
    && (forall i :: 0 <= i < |ps| ==>
          ps[i].name in before && ps[i].meanSquare == before[ps[i].name].cumulative / size as real)
  }

  lemma ScanStart(before: map<string, RmsData>, size: u32)
    requires size >= 1
    ensures Scanned(before, size, before.Keys, before, [])
  {
  }

  /** Visiting the least remaining name keeps the scan consistent. */
  lemma ScanStep(before: map<string, RmsData>, size: u32, remaining: set<string>,
                 m: map<string, RmsData>, ps: seq<Datapoint>, name: string)
    requires size >= 1
    requires Scanned(before, size, remaining, m, ps) && IsLeast(name, remaining)
    ensures m[name] == before[name]
    ensures m[name].samples >= size ==>
      Scanned(before, size, remaining - {name}, m[name := Fresh],
              ps + [Datapoint(name, m[name].cumulative / size as real)])
    ensures m[name].samples < size ==> Scanned(before, size, remaining - {name}, m, ps)
  {
    var d := Datapoint(name, m[name].cumulative / size as real);
    NameSetAppend(ps, d);
    var rest := remaining - {name};
    if m[name].samples >= size {
      var ps' := ps + [d];
      forall i, j | 0 <= i < j < |ps'|
        ensures Less(ps'[i].name, ps'[j].name)
      {
        if j == |ps| {
          assert ps'[i] == ps[i];
        }
      }
      forall i, k | 0 <= i < |ps'| && k in rest
        ensures Less(ps'[i].name, k)
      {
        if i == |ps| {
          assert ps'[i].name == name;
        } else {
          assert ps'[i] == ps[i];
        }
      }
    } else {
      assert name !in Completed(before, size);
    }
  }

  /** A finished scan has produced the flushed table and exactly the emitted datapoints. */
  lemma ScanDone(before: map<string, RmsData>, size: u32, m: map<string, RmsData>, ps: seq<Datapoint>)
    requires size >= 1
    requires Scanned(before, size, {}, m, ps)
    ensures m == Flushed(before, size)
    ensures Emits(ps, before, size)
    ensures ps == [] <==> Completed(before, size) == {}
  {
    if ps != [] {
      assert ps[0].name in NameSet(ps);
    }
  }

  /** The table after the samples `vs` for `name`, in order. */
  function AddedAll(m: map<string, RmsData>, name: string, vs: seq<real>): map<string, RmsData>
    decreases |vs|
  {
    if vs == [] then m else AddedAll(Added(m, name, vs[0]), name, vs[1..])
  }

  function SumOfSquares(vs: seq<real>): real
    decreases |vs|
  {
    if vs == [] then 0.0 else vs[0] * vs[0] + SumOfSquares(vs[1..])
  }

  /**
   * Folding samples into one name counts each exactly once and adds exactly
   * its square, and leaves every other name alone (no wrap while the count
   * stays below the `unsigned int` limit).
   */
  lemma {:induction false} AddedAllFolds(m: map<string, RmsData>, name: string, vs: seq<real>)
    requires Lookup(m, name).samples as int + |vs| < U32_LIMIT
    ensures name in AddedAll(m, name, vs) || vs == []
    ensures Lookup(AddedAll(m, name, vs), name).samples as int == Lookup(m, name).samples as int + |vs|
    ensures Lookup(AddedAll(m, name, vs), name).cumulative == Lookup(m, name).cumulative + SumOfSquares(vs)
    ensures AddedAll(m, name, vs).Keys == m.Keys + (if vs == [] then {} else {name})
    ensures forall k :: k in m && k != name ==> AddedAll(m, name, vs)[k] == m[k]
    decreases |vs|
  {
    if vs != [] {
      AddedAllFolds(Added(m, name, vs[0]), name, vs[1..]);
    }
  }

  /**
   * Starting from a fresh or just-flushed record, a name completes its window
   * on exactly the `size`-th sample, holding then the sum of the squares of
   * exactly those samples.
   */
  lemma {:induction false} WindowCompletes(m: map<string, RmsData>, name: string, vs: seq<real>, size: u32)
    requires size >= 1 && |vs| <= size as int
    requires Lookup(m, name) == Fresh
    ensures name in Completed(AddedAll(m, name, vs), size) <==> |vs| == size as int
    ensures |vs| == size as int ==> AddedAll(m, name, vs)[name] == RmsData(size, SumOfSquares(vs))
  {
    AddedAllFolds(m, name, vs);
  }

  /**
   * Windows are independent: a flush resets a completed window to `Fresh`,
   * so the same `size` samples fed in again complete again with the same
   * record, and hence the same emitted value.
   */
  lemma WindowRepeats(m: map<string, RmsData>, name: string, vs: seq<real>, size: u32)
    requires size >= 1 && |vs| == size as int
    requires Lookup(m, name) == Fresh
    ensures name in Completed(AddedAll(m, name, vs), size)
    ensures Lookup(Flushed(AddedAll(m, name, vs), size), name) == Fresh
    ensures name in Completed(AddedAll(Flushed(AddedAll(m, name, vs), size), name, vs), size)
    ensures AddedAll(Flushed(AddedAll(m, name, vs), size), name, vs)[name] == AddedAll(m, name, vs)[name]
  {
    var first := AddedAll(m, name, vs);
    WindowCompletes(m, name, vs, size);
    WindowCompletes(Flushed(first, size), name, vs, size);
  }

  function Repeat(v: real, n: nat): (r: seq<real>)
    ensures |r| == n
  {
    seq(n, _ => v)
  }

  lemma {:induction false} SumOfSquaresRepeat(v: real, n: nat)
    ensures SumOfSquares(Repeat(v, n)) == n as real * (v * v)
    decreases n
  {
    if n > 0 {
      assert Repeat(v, n)[1..] == Repeat(v, n - 1);
      SumOfSquaresRepeat(v, n - 1);
    }
  }

  /** A window of `size` equal samples `v` has mean square `v * v`, so its RMS is `|v|`. */
  lemma ConstantWindow(m: map<string, RmsData>, name: string, v: real, size: u32)
    requires size >= 1
    requires Lookup(m, name) == Fresh
    ensures name in Completed(AddedAll(m, name, Repeat(v, size as nat)), size)
    ensures AddedAll(m, name, Repeat(v, size as nat))[name].cumulative / size as real == v * v
  {
    var vs := Repeat(v, size as nat);
    WindowCompletes(m, name, vs, size);
    SumOfSquaresRepeat(v, size as nat);
    var c := AddedAll(m, name, vs)[name].cumulative;
    assert c == SumOfSquares(vs);
    DivideBack(c, size as real, v * v);
  }

  lemma DivideBack(c: real, n: real, x: real)
    requires n != 0.0 && c == n * x
    ensures c / n == x
  {
  }

  /**
   * Completion is decided by comparing the count with the threshold passed
   * in: after one more sample a name is complete under `size` exactly when
   * its old count plus one reaches `size`.
   */
  lemma ReachesThreshold(m: map<string, RmsData>, name: string, v: real, size: u32)
    requires Lookup(m, name).samples as int + 1 < U32_LIMIT
    ensures name in Completed(Added(m, name, v), size) <==> Lookup(m, name).samples as int + 1 >= size as int
  {
  }
}
