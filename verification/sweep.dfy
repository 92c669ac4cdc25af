/** The benchmark loop as a fold over the loop-order keys: each visited
    cell gets its trial times, their minimum and their dispersion written
    into its own row of an immutable table; a keyboard interrupt is a sweep
    that stopped after some number of whole cells. */
module Sweep {
  import opened Wrappers
  import opened Seqs
  import opened Shapes
  import opened Lengths
  import opened Table

  /** The contents of one filled row: `time`, `sigma`, `t0..t{repeats-1}`. */
  datatype Row = Row(time: real, sigma: real, trials: seq<real>)

  /** What the timing harness reports for one cell: the per-trial times and
      their standard deviation, both computed outside this model. */
  datatype Measurement = Measurement(trials: seq<real>, sigma: real)

  /** The data frame: every row label maps to NaNs (`None`) or a row. */
  type Frame = map<Key, Option<Row>>

  /** The exceptions a cell write can raise: `min` of no trial times, and
      pandas refusing a trial vector whose length is not the number of
      trial columns. */
  datatype SweepError =
    | MinOfEmpty(key: Key)
    | ColumnMismatch(key: Key, columns: nat, values: nat)

  /** The measurement can be written into a table with `repeats` trial
      columns. */
  predicate Fits(m: Measurement, repeats: nat) {
    0 < |m.trials| == repeats
  }

  /** The row written for a measurement. */
  function RowOf(m: Measurement): Row
    requires |m.trials| > 0
  {
    Row(Min(m.trials), m.sigma, m.trials)
  }

  /** The freshly created data frame: every index row, all NaN. */
  function EmptyFrame(cfg: Config): Frame {
    map key | key in IndexKeys(cfg) :: None
  }

  /** The freshly created frame has one NaN row per key of the iteration
      space, `|sorts| * |types| * |lengths|` rows in all. */
  lemma EmptyFrameFacts(cfg: Config)
    requires Valid(cfg)
    ensures forall key: Key :: key in EmptyFrame(cfg) <==> InSpace(cfg, key)
    ensures forall key :: key in EmptyFrame(cfg) ==> EmptyFrame(cfg)[key] == None
    ensures |EmptyFrame(cfg)| == |cfg.kinds| * |cfg.shapes| * |cfg.lengths|
  {
    LoopCoversIndex(cfg);
    IndexKeysFacts(cfg);
    assert EmptyFrame(cfg).Keys == Elems(IndexKeys(cfg));
  }

  /** One pass of the innermost loop body: take `min(times)`, then write the
      trial columns, `time` and `sigma` of row `key`. */
  function WriteCell(t: Frame, key: Key, m: Measurement, repeats: nat): (r: Result<Frame, SweepError>)
    ensures r.Failure? <==> !Fits(m, repeats)
    ensures |m.trials| == 0 ==> r == Failure(MinOfEmpty(key))
    ensures r.Success? ==> r.value.Keys == t.Keys + {key}
    ensures r.Success? ==> forall k :: k in t && k != key ==> r.value[k] == t[k]
    ensures r.Success? ==> r.value[key].Some?
                           && r.value[key].value.trials == m.trials
                           && r.value[key].value.sigma == m.sigma
                           && r.value[key].value.time in m.trials
                           && forall i :: 0 <= i < |m.trials| ==> r.value[key].value.time <= m.trials[i]
  {
    if |m.trials| == 0 then Failure(MinOfEmpty(key))
    else if |m.trials| != repeats then Failure(ColumnMismatch(key, repeats, |m.trials|))
    else Success(t[key := Some(RowOf(m))])
  }

  /** Visit `keys` in order with their measurements, stopping at the first
      exception. */
  function Fold(t: Frame, keys: seq<Key>, ms: seq<Measurement>, repeats: nat): (r: Result<Frame, SweepError>)
    requires |ms| == |keys|
    ensures r.Success? <==> forall i :: 0 <= i < |ms| ==> Fits(ms[i], repeats)
    ensures r.Success? ==> r.value.Keys == t.Keys + Elems(keys)
    ensures r.Success? ==> forall k :: k in t && k !in keys ==> r.value[k] == t[k]
    ensures r.Success? && NoDup(keys) ==>
              forall i :: 0 <= i < |keys| ==> r.value[keys[i]] == Some(RowOf(ms[i]))
    decreases |keys|
  {
    if |keys| == 0 then Success(t)
    else
      match WriteCell(t, keys[0], ms[0], repeats)
      case Failure(e) => Failure(e)
      case Success(t1) =>
        var r := Fold(t1, keys[1..], ms[1..], repeats);
        assert forall i :: 1 <= i < |ms| ==> ms[i] == ms[1..][i - 1];
        TailFacts(keys);
        r
  }

  /** The benchmark loop run over the first `|ms|` cells in loop order, the
      `i`-th visited cell receiving `ms[i]`; `|ms|` below the number of
      cells is a sweep cut short by a keyboard interrupt. */
  function RunSweep(cfg: Config, ms: seq<Measurement>): Result<Frame, SweepError>
    requires |ms| <= |LoopKeys(cfg)|
  {
    Fold(EmptyFrame(cfg), LoopKeys(cfg)[..|ms|], ms, cfg.repeats)
  }

  /** Folding one more cell is one more write on the folded table. */
  lemma {:induction false} FoldAppend(t: Frame, keys: seq<Key>, ms: seq<Measurement>, k: Key, m: Measurement, repeats: nat)
    requires |ms| == |keys|
    ensures Fold(t, keys + [k], ms + [m], repeats) ==
              match Fold(t, keys, ms, repeats)
              case Failure(e) => Failure(e)
              case Success(t1) => WriteCell(t1, k, m, repeats)
    decreases |keys|
  {
    if |keys| == 0 {
      assert Fold(t, [k], [m], repeats) == match WriteCell(t, k, m, repeats)
        case Failure(e) => Failure(e)
        case Success(t1) => Fold(t1, [], [], repeats);
    } else {
      assert (keys + [k])[1..] == keys[1..] + [k];
      assert (ms + [m])[1..] == ms[1..] + [m];
      match WriteCell(t, keys[0], ms[0], repeats)
      case Failure(e) =>
      case Success(t1) =>
        FoldAppend(t1, keys[1..], ms[1..], k, m, repeats);
    }
  }

  /** A sweep that gets one cell further differs from the shorter sweep by
      exactly one cell write: the row of the next key in loop order. */
  lemma SweepStep(cfg: Config, ms: seq<Measurement>, m: Measurement)
    requires |ms| < |LoopKeys(cfg)|
    ensures RunSweep(cfg, ms + [m]) ==
              match RunSweep(cfg, ms)
              case Failure(e) => Failure(e)
              case Success(t) => WriteCell(t, LoopKeys(cfg)[|ms|], m, cfg.repeats)
  {
    var keys := LoopKeys(cfg);
    assert keys[..|ms| + 1] == keys[..|ms|] + [keys[|ms|]];
    FoldAppend(EmptyFrame(cfg), keys[..|ms|], ms, keys[|ms|], m, cfg.repeats);
  }

  /** A prefix of a duplicate-free sequence is duplicate-free and holds
      none of the later elements. */
  lemma PrefixNoDup<T>(keys: seq<T>, k: nat)
    requires NoDup(keys) && k <= |keys|
    ensures NoDup(keys[..k])
    ensures forall i :: k <= i < |keys| ==> keys[i] !in keys[..k]
  {
    var done := keys[..k];
    forall i, j | 0 <= i < j < |done| ensures done[i] != done[j] {
      assert done[i] == keys[i] && done[j] == keys[j];
    }
    forall i | k <= i < |keys| ensures keys[i] !in done {
      assert forall j :: 0 <= j < |done| ==> done[j] == keys[j] != keys[i];
    }
  }

  /** Folding the first `|ms|` of some distinct keys over an all-NaN table
      fills exactly those rows. */
  lemma FoldPrefix(e: Frame, keys: seq<Key>, ms: seq<Measurement>, repeats: nat)
    requires NoDup(keys) && |ms| <= |keys|
    requires forall i :: 0 <= i < |ms| ==> Fits(ms[i], repeats)
    requires forall key :: key in keys ==> key in e
    requires forall key :: key in e ==> e[key] == None
    ensures Fold(e, keys[..|ms|], ms, repeats).Success?
    ensures Fold(e, keys[..|ms|], ms, repeats).value.Keys == e.Keys
    ensures forall i :: 0 <= i < |keys| ==>
              keys[i] in Fold(e, keys[..|ms|], ms, repeats).value
              && (Fold(e, keys[..|ms|], ms, repeats).value[keys[i]].Some? <==> i < |ms|)
    ensures forall i :: 0 <= i < |ms| ==> Fold(e, keys[..|ms|], ms, repeats).value[keys[i]] == Some(RowOf(ms[i]))
  {
    var done := keys[..|ms|];
    PrefixNoDup(keys, |ms|);
    var t := Fold(e, done, ms, repeats).value;
    assert t.Keys == e.Keys by {
      assert forall key :: key in done ==> key in keys;
    }
    forall i | 0 <= i < |keys|
      ensures keys[i] in t && (t[keys[i]].Some? <==> i < |ms|)
    {
      if i < |ms| {
        assert keys[i] == done[i];
      } else {
        assert t[keys[i]] == e[keys[i]];
      }
    }
    forall i | 0 <= i < |ms|
      ensures t[keys[i]] == Some(RowOf(ms[i]))
    {
      assert keys[i] == done[i];
    }
  }

  /** After a sweep interrupted following `|ms|` whole cells, the table still
      has exactly the rows of the index; the filled rows are exactly the
      first `|ms|` keys in loop order, each holding its own measurement;
      every other row is still NaN. */
  lemma SweepPrefix(cfg: Config, ms: seq<Measurement>)
    requires Valid(cfg)
    requires |ms| <= |LoopKeys(cfg)|
    requires forall i :: 0 <= i < |ms| ==> Fits(ms[i], cfg.repeats)
    ensures RunSweep(cfg, ms).Success?
    ensures RunSweep(cfg, ms).value.Keys == EmptyFrame(cfg).Keys
    ensures forall key: Key :: key in RunSweep(cfg, ms).value <==> InSpace(cfg, key)
    ensures forall i :: 0 <= i < |LoopKeys(cfg)| ==>
              LoopKeys(cfg)[i] in RunSweep(cfg, ms).value
              && (RunSweep(cfg, ms).value[LoopKeys(cfg)[i]].Some? <==> i < |ms|)
    ensures forall i :: 0 <= i < |ms| ==> RunSweep(cfg, ms).value[LoopKeys(cfg)[i]] == Some(RowOf(ms[i]))
  {
    LoopKeysFacts(cfg);
    EmptyFrameFacts(cfg);
    FoldPrefix(EmptyFrame(cfg), LoopKeys(cfg), ms, cfg.repeats);
  }

  /** With the timing harness returning `repeats` trials per cell, a sweep
      succeeds exactly when `repeats > 0` (or no cell was reached); with no
      repeats, `min` fails on the very first cell. */
  lemma SweepOutcome(cfg: Config, ms: seq<Measurement>)
    requires |ms| <= |LoopKeys(cfg)|
    requires forall i :: 0 <= i < |ms| ==> |ms[i].trials| == cfg.repeats
    ensures RunSweep(cfg, ms).Success? <==> cfg.repeats > 0 || |ms| == 0
    ensures cfg.repeats == 0 && |ms| > 0 ==> RunSweep(cfg, ms) == Failure(MinOfEmpty(LoopKeys(cfg)[0]))
  {
  }

  /** A sweep that is not interrupted fills every row of the table. */
  lemma FullSweepFills(cfg: Config, ms: seq<Measurement>)
    requires Valid(cfg)
    requires |ms| == |LoopKeys(cfg)|
    requires forall i :: 0 <= i < |ms| ==> Fits(ms[i], cfg.repeats)
    ensures RunSweep(cfg, ms).Success?
    ensures forall key :: key in RunSweep(cfg, ms).value ==> RunSweep(cfg, ms).value[key].Some?
  {
    SweepPrefix(cfg, ms);
    LoopKeysFacts(cfg);
    var t := RunSweep(cfg, ms).value;
    forall key | key in t
      ensures t[key].Some?
    {
      var i :| 0 <= i < |LoopKeys(cfg)| && LoopKeys(cfg)[i] == key;
    }
  }

  /** End to end for `maxPow = 2`, one sort, one type and one repeat: the
      loop visits 14 cells and an uninterrupted sweep fills all 14 rows. */
  lemma SmallRunScenario(host: string, kind: SortKind, shape: Shape, ms: seq<Measurement>)
    requires |ms| == 14
    requires forall i :: 0 <= i < 14 ==> |ms[i].trials| == 1
    ensures var cfg := Config(host, [kind], [shape], ArrayLengths(2), 1);
            |LoopKeys(cfg)| == 14
            && RunSweep(cfg, ms).Success?
            && |RunSweep(cfg, ms).value| == 14
            && forall key :: key in RunSweep(cfg, ms).value ==> RunSweep(cfg, ms).value[key].Some?
  {
    var cfg := Config(host, [kind], [shape], ArrayLengths(2), 1);
    assert Valid(cfg) by {
      LengthsIncreasing(2);
    }
    assert |LoopKeys(cfg)| == 14 by {
      LoopKeysFacts(cfg);
    }
    FullSweepFills(cfg, ms);
    SweepPrefix(cfg, ms);
    EmptyFrameFacts(cfg);
    var t := RunSweep(cfg, ms).value;
    assert |t| == |t.Keys| == |EmptyFrame(cfg).Keys| == |EmptyFrame(cfg)|;
  }

  /** The script's own table: 3 sorts, 4 types and 77 lengths give 924
      rows, with the 7 distinct columns `time`, `sigma`, `t0..t4`. */
  lemma ScriptTable(host: string)
    ensures |EmptyFrame(BenchConfig(host, 9, 5))| == 924
    ensures |Columns(5)| == 7 && NoDup(Columns(5))
  {
    EmptyFrameFacts(BenchConfig(host, 9, 5));
    ColumnsDistinct(5);
  }
}
