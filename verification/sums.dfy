/** Strict summation over the lines of an input, as
    `lines.map(|line| parse(line).map(measure)).sum::<Result<i64, E>>()`
    computes it: each line is parsed and measured in order, the amounts are
    added, and the first line that does not parse makes the whole sum that
    line's error. The parser and the measure are parameters. */
module Sums {
  import opened Results

  /** Rust's `Iterator::sum` into a `Result`: the values are added in order
      and the first error ends the sum and is returned instead. */
  function StrictSum<E>(rs: seq<Result<int, E>>): (r: Result<int, E>)
    ensures |rs| == 0 ==> r == Ok(0)
    ensures r.Err? ==> exists k :: 0 <= k < |rs| && rs[k] == Err(r.error)
    decreases |rs|
  {
    if |rs| == 0 then Ok(0)
    else
      var x :- rs[0];
      var rest :- StrictSum(rs[1..]);
      Ok(x + rest)
  }

  /** Two partial sums added, the first error winning: `Ok(r1? + r2?)`. */
  function AddResults<E>(r1: Result<int, E>, r2: Result<int, E>): (r: Result<int, E>)
    ensures r.Ok? <==> r1.Ok? && r2.Ok?
    ensures r.Ok? ==> r.value == r1.value + r2.value
    ensures r1.Err? ==> r == Err(r1.error)
    ensures r1.Ok? && r2.Err? ==> r == Err(r2.error)
  {
    var x :- r1;
    var y :- r2;
    Ok(x + y)
  }

  /** One line parsed and, if it parses, measured: `parse(line).map(measure)`. */
  function MeasureLine<T, E>(line: string, parse: string -> Result<T, E>, measure: T -> int): (r: Result<int, E>)
    ensures r.Ok? <==> parse(line).Ok?
    ensures r.Ok? ==> r.value == measure(parse(line).value)
    ensures r.Err? ==> r.error == parse(line).error
  {
    var d :- parse(line);
    Ok(measure(d))
  }

  /** Every line parsed and measured, in order. */
  function Measured<T, E>(lines: seq<string>, parse: string -> Result<T, E>, measure: T -> int): (rs: seq<Result<int, E>>)
    ensures |rs| == |lines|
    decreases |lines|
  {
    if |lines| == 0 then []
    else [MeasureLine(lines[0], parse, measure)] + Measured(lines[1..], parse, measure)
  }

  /** The strict sum of `measure` over what the lines parse to: no lines add
      up to 0, and an error is always that of one of the lines. */
  function Total<T, E>(lines: seq<string>, parse: string -> Result<T, E>, measure: T -> int): (r: Result<int, E>)
    ensures |lines| == 0 ==> r == Ok(0)
    ensures r.Err? ==> exists k :: 0 <= k < |lines| && parse(lines[k]) == Err(r.error)
  {
    MeasuredAll(lines, parse, measure);
    StrictSum(Measured(lines, parse, measure))
  }

  /** What lines that all parse parse to, in order. */
  function Parsed<T, E>(lines: seq<string>, parse: string -> Result<T, E>): (xs: seq<T>)
    requires forall k :: 0 <= k < |lines| ==> parse(lines[k]).Ok?
    ensures |xs| == |lines|
    decreases |lines|
  {
    if |lines| == 0 then [] else [parse(lines[0]).value] + Parsed(lines[1..], parse)
  }

  /** The measure added up over a sequence of values. */
  function SumOf<T>(xs: seq<T>, measure: T -> int): int
    decreases |xs|
  {
    if |xs| == 0 then 0 else measure(xs[0]) + SumOf(xs[1..], measure)
  }

  // ---------------------------------------------------------------------
  // Strict sums of results

  /** A strict sum succeeds exactly when every result does. */
  lemma {:induction false} StrictSumOk<E>(rs: seq<Result<int, E>>)
    ensures StrictSum(rs).Ok? <==> forall k :: 0 <= k < |rs| ==> rs[k].Ok?
    decreases |rs|
  {
    if |rs| > 0 {
      StrictSumOk(rs[1..]);
      assert forall k :: 1 <= k < |rs| ==> rs[k] == rs[1..][k - 1];
    }
  }

  /** A strict sum fails with the first error among the results. */
  lemma {:induction false} StrictSumFirstError<E>(rs: seq<Result<int, E>>, i: nat)
    requires i < |rs| && rs[i].Err?
    requires forall k :: 0 <= k < i ==> rs[k].Ok?
    ensures StrictSum(rs) == Err(rs[i].error)
    decreases i
  {
    if i > 0 {
      StrictSumFirstError(rs[1..], i - 1);
    }
  }

  /** Strict sums compose: the sum of two runs is the sum of their sums, and
      an error in the first run wins over anything after it. */
  lemma {:induction false} StrictSumAppend<E>(a: seq<Result<int, E>>, b: seq<Result<int, E>>)
    ensures StrictSum(a + b) == AddResults(StrictSum(a), StrictSum(b))
    decreases |a|
  {
    if |a| > 0 {
      assert (a + b)[0] == a[0];
      assert (a + b)[1..] == a[1..] + b;
      StrictSumAppend(a[1..], b);
    } else {
      assert a + b == b;
    }
  }

  /** The strict sum of one result is that result. */
  lemma StrictSumSingle<E>(r: Result<int, E>)
    ensures StrictSum([r]) == r
  {
    assert [r][1..] == [];
  }

  // ---------------------------------------------------------------------
  // Totals over lines

  /** The `k`-th result is that of the `k`-th line. */
  lemma {:induction false} MeasuredAt<T, E>(lines: seq<string>, parse: string -> Result<T, E>, measure: T -> int, k: nat)
    requires k < |lines|
    ensures Measured(lines, parse, measure)[k] == MeasureLine(lines[k], parse, measure)
    decreases k
  {
    if k > 0 {
      MeasuredAt(lines[1..], parse, measure, k - 1);
    }
  }

  /** Every result is that of its line. */
  lemma MeasuredAll<T, E>(lines: seq<string>, parse: string -> Result<T, E>, measure: T -> int)
    ensures forall k :: 0 <= k < |lines| ==>
      Measured(lines, parse, measure)[k] == MeasureLine(lines[k], parse, measure)
  {
    forall k | 0 <= k < |lines|
      ensures Measured(lines, parse, measure)[k] == MeasureLine(lines[k], parse, measure)
    {
      MeasuredAt(lines, parse, measure, k);
    }
  }

  /** Measuring two runs of lines one after the other. */
  lemma {:induction false} MeasuredAppend<T, E>(a: seq<string>, b: seq<string>, parse: string -> Result<T, E>, measure: T -> int)
    ensures Measured(a + b, parse, measure) == Measured(a, parse, measure) + Measured(b, parse, measure)
    decreases |a|
  {
    if |a| > 0 {
      assert (a + b)[0] == a[0];
      assert (a + b)[1..] == a[1..] + b;
      MeasuredAppend(a[1..], b, parse, measure);
    } else {
      assert a + b == b;
    }
  }

  /** When every line parses, the total is the measure added up over what
      they parse to: parse everything first, then add up. */
  lemma {:induction false} TotalAllParse<T, E>(lines: seq<string>, parse: string -> Result<T, E>, measure: T -> int)
    requires forall k :: 0 <= k < |lines| ==> parse(lines[k]).Ok?
    ensures Total(lines, parse, measure) == Ok(SumOf(Parsed(lines, parse), measure))
    decreases |lines|
  {
    if |lines| > 0 {
      var rest := lines[1..];
      assert forall k :: 0 <= k < |rest| ==> rest[k] == lines[k + 1];
      TotalAllParse(rest, parse, measure);
      var rs := Measured(lines, parse, measure);
      var xs := Parsed(lines, parse);
      assert rs[0] == Ok(measure(xs[0]));
      assert rs[1..] == Measured(rest, parse, measure);
      assert xs[1..] == Parsed(rest, parse);
    }
  }

  /** The first line that does not parse decides: its error is the total's. */
  lemma TotalFirstError<T, E>(lines: seq<string>, parse: string -> Result<T, E>, measure: T -> int, i: nat)
    requires i < |lines| && parse(lines[i]).Err?
    requires forall k :: 0 <= k < i ==> parse(lines[k]).Ok?
    ensures Total(lines, parse, measure) == Err(parse(lines[i]).error)
  {
    var rs := Measured(lines, parse, measure);
    MeasuredAt(lines, parse, measure, i);
    forall k | 0 <= k < i
      ensures rs[k].Ok?
    {
      MeasuredAt(lines, parse, measure, k);
    }
    StrictSumFirstError(rs, i);
  }

  /** The total is a number exactly when every line parses. */
  lemma TotalOk<T, E>(lines: seq<string>, parse: string -> Result<T, E>, measure: T -> int)
    ensures Total(lines, parse, measure).Ok? <==> forall k :: 0 <= k < |lines| ==> parse(lines[k]).Ok?
  {
    var rs := Measured(lines, parse, measure);
    StrictSumOk(rs);
    forall k | 0 <= k < |lines|
      ensures rs[k].Ok? <==> parse(lines[k]).Ok?
    {
      MeasuredAt(lines, parse, measure, k);
    }
  }

  /** Strictness across a split of the input: the lines before and the lines
      after combine as two strict sums. */
  lemma TotalAppend<T, E>(a: seq<string>, b: seq<string>, parse: string -> Result<T, E>, measure: T -> int)
    ensures Total(a + b, parse, measure) == AddResults(Total(a, parse, measure), Total(b, parse, measure))
  {
    MeasuredAppend(a, b, parse, measure);
    StrictSumAppend(Measured(a, parse, measure), Measured(b, parse, measure));
  }

  /** One line alone: the total is that line's amount, or its error. */
  lemma TotalSingle<T, E>(line: string, parse: string -> Result<T, E>, measure: T -> int)
    ensures Total([line], parse, measure) == MeasureLine(line, parse, measure)
  {
    assert Measured([line], parse, measure) == [MeasureLine(line, parse, measure)];
    StrictSumSingle(MeasureLine(line, parse, measure));
  }
}
