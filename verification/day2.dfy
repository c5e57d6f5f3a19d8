/** Day 2 of 2015, "I Was Told There Would Be No Math": every input line
    gives the dimensions of a present as `LxWxH`. Part one totals the
    wrapping paper (surface area plus the area of the smallest side), part
    two the ribbon (smallest perimeter plus the volume as a bow).

    Both totals are strict: the first line that does not parse makes the
    whole answer that line's error. Arithmetic is on unbounded integers. */
module Day2 {
  import opened Results
  import opened Str
  import opened Decimal
  import opened Sums

  /** The dimensions of one present, in input order. */
  datatype Dimensions = Dimensions(length: int, width: int, height: int)

  /** Why a line is not a present's dimensions. */
  datatype ParseDimensionError =
    | MissingDimensions    // fewer than three `x`-separated fields
    | TooManyDimensions    // more than three fields were found
    | InvalidType          // a field is not an unsigned 64-bit integer
    | TooLargeDimension    // a field does not fit in a signed 64-bit integer

  const X: char := 'x'

  /** Every dimension lies in `0..=i64::MAX`. */
  predicate InRange(d: Dimensions) {
    && 0 <= d.length <= I64_MAX
    && 0 <= d.width <= I64_MAX
    && 0 <= d.height <= I64_MAX
  }

  /** One field: `i64::try_from(term.parse::<u64>()?)?`. Text that is not an
      unsigned 64-bit integer is `InvalidType`; one that is, but does not fit
      in a signed 64-bit integer, is `TooLargeDimension`. */
  function ParseField(term: string): (r: Result<int, ParseDimensionError>)
    ensures r.Ok? ==> 0 <= r.value <= I64_MAX
    ensures r.Err? ==> r.error == InvalidType || r.error == TooLargeDimension
    ensures r.Ok? <==> FieldOk(term)
    ensures r.Ok? ==> r.value == ParseU64(term).value
    ensures r == Err(InvalidType) <==> ParseU64(term).None?
    ensures r == Err(TooLargeDimension) <==> ParseU64(term).Some? && ParseU64(term).value > I64_MAX
  {
    match ParseU64(term)
    case None => Err(InvalidType)
    case Some(v) => if v > I64_MAX then Err(TooLargeDimension) else Ok(v)
  }

  /** The `k`-th field of the split line, `MissingDimensions` when absent. */
  function Field(terms: seq<string>, k: nat): (r: Result<int, ParseDimensionError>)
    ensures k >= |terms| ==> r == Err(MissingDimensions)
  {
    if k < |terms| then ParseField(terms[k]) else Err(MissingDimensions)
  }

  /** The reads from the pieces of the split line: length, width and height
      in that order, stopping at the first failure, then the check that no
      piece is left over. */
  function ParseTerms(terms: seq<string>): (r: Result<Dimensions, ParseDimensionError>)
    ensures r.Ok? ==> InRange(r.value)
    ensures r.Ok? <==> |terms| == 3 && FieldOk(terms[0]) && FieldOk(terms[1]) && FieldOk(terms[2])
    ensures r == Err(MissingDimensions) <==>
      |terms| < 3 && forall k :: 0 <= k < |terms| ==> FieldOk(terms[k])
    ensures r == Err(TooManyDimensions) <==>
      |terms| > 3 && FieldOk(terms[0]) && FieldOk(terms[1]) && FieldOk(terms[2])
    ensures |terms| >= 1 && !FieldOk(terms[0]) ==> r == Err(ParseField(terms[0]).error)
    ensures |terms| >= 2 && FieldOk(terms[0]) && !FieldOk(terms[1]) ==>
      r == Err(ParseField(terms[1]).error)
    ensures |terms| >= 3 && FieldOk(terms[0]) && FieldOk(terms[1]) && !FieldOk(terms[2]) ==>
      r == Err(ParseField(terms[2]).error)
  {
    var length :- Field(terms, 0);
    var width :- Field(terms, 1);
    var height :- Field(terms, 2);
    if |terms| > 3 then Err(TooManyDimensions)
    else Ok(Dimensions(length, width, height))
  }

  /** `Dimensions::from_str`: split into at most three pieces at `x`, then
      read them. Because the third piece keeps every further `x`, a line with
      more than three fields fails on its third piece, and the final check
      for leftover pieces never fires: `TooManyDimensions` is never returned. */
  function ParseDimensions(s: string): (r: Result<Dimensions, ParseDimensionError>)
    ensures r.Ok? ==> InRange(r.value)
    ensures r != Err(TooManyDimensions)
  {
    ParseTerms(SplitN(s, 3, X))
  }

  /** The least of three numbers. */
  function Min3(a: int, b: int, c: int): (m: int)
    ensures m <= a && m <= b && m <= c
    ensures m == a || m == b || m == c
  {
    if a <= b && a <= c then a else if b <= c then b else c
  }

  /** `wrapping_paper`: the surface area `2lw + 2wh + 2hl` plus, as slack,
      the area of the smallest side. */
  function WrappingPaper(d: Dimensions): (r: int)
    ensures var (l, w, h) := (d.length, d.width, d.height);
      var slack := r - 2 * (l * w + w * h + h * l);
      && (slack == l * w || slack == w * h || slack == h * l)
      && slack <= l * w && slack <= w * h && slack <= h * l
  {
    var areas := [d.length * d.width, d.width * d.height, d.length * d.height];
    2 * (areas[0] + areas[1] + areas[2]) + Min3(areas[0], areas[1], areas[2])
  }

  /** `ribbon`: the smallest perimeter of a side, to go around the present,
      plus the volume, for the bow. */
  function Ribbon(d: Dimensions): (r: int)
    ensures var (l, w, h) := (d.length, d.width, d.height);
      var wrap := r - l * w * h;
      && (wrap == 2 * (l + w) || wrap == 2 * (w + h) || wrap == 2 * (h + l))
      && wrap <= 2 * (l + w) && wrap <= 2 * (w + h) && wrap <= 2 * (h + l)
  {
    var halfPerimeters := [d.length + d.width, d.width + d.height, d.length + d.height];
    2 * Min3(halfPerimeters[0], halfPerimeters[1], halfPerimeters[2])
      + d.length * d.width * d.height
  }

  /** `part1`: the wrapping paper for all presents. */
  function Part1(input: string): (r: Result<int, ParseDimensionError>)
    ensures |input| == 0 ==> r == Ok(0)
  {
    Total(Lines(input), ParseDimensions, WrappingPaper)
  }

  /** `part2`: the ribbon for all presents. */
  function Part2(input: string): (r: Result<int, ParseDimensionError>)
    ensures |input| == 0 ==> r == Ok(0)
  {
    Total(Lines(input), ParseDimensions, Ribbon)
  }

  // ---------------------------------------------------------------------
  // The two formulas

  /** Boxes with non-negative sides need a non-negative amount of both. */
  lemma BoxFormulasNonNegative(d: Dimensions)
    requires d.length >= 0 && d.width >= 0 && d.height >= 0
    ensures WrappingPaper(d) >= 0 && Ribbon(d) >= 0
  {
    var (l, w, h) := (d.length, d.width, d.height);
    assert l * w >= 0 && w * h >= 0 && l * h >= 0;
    assert l * w * h >= 0 by {
      assert (l * w) * h >= 0;
    }
  }

  /** Turning the box over changes neither amount: both depend only on the
      three sides, not on which is called length, width or height. */
  lemma BoxFormulasSymmetric(d: Dimensions)
    ensures var (l, w, h) := (d.length, d.width, d.height);
      && WrappingPaper(Dimensions(w, h, l)) == WrappingPaper(d)
      && WrappingPaper(Dimensions(w, l, h)) == WrappingPaper(d)
      && Ribbon(Dimensions(w, h, l)) == Ribbon(d)
      && Ribbon(Dimensions(w, l, h)) == Ribbon(d)
  {
    var (l, w, h) := (d.length, d.width, d.height);
    assert w * h * l == l * w * h && w * l * h == l * w * h;
    assert w * l == l * w && h * l == l * h && h * w == w * h;
  }

  /** The puzzle's two presents. */
  lemma BoxFormulasExamples()
    ensures WrappingPaper(Dimensions(2, 3, 4)) == 58 && WrappingPaper(Dimensions(1, 1, 10)) == 43
    ensures Ribbon(Dimensions(2, 3, 4)) == 34 && Ribbon(Dimensions(1, 1, 10)) == 14
  {
  }

  // ---------------------------------------------------------------------
  // Parsing a line

  /** Whether a field reads as a dimension. */
  predicate FieldOk(term: string) {
    ParseU64(term).Some? && ParseU64(term).value <= I64_MAX
  }

  /** A field that reads as a dimension holds no `x`. */
  lemma FieldOkHasNoX(term: string)
    requires ParseU64(term).Some?
    ensures X !in term
  {
    if |term| > 0 {
      assert term[0] != X;
      forall k | 0 < k < |term| ensures term[k] != X {
        assert IsDigit(term[k]);
      }
    }
  }

  /** The pieces `splitn(3, 'x')` hands to the parser, in terms of the full
      split: the first two are fields, the third is everything after. */
  lemma SplitN3(s: string)
    ensures var all := Split(s, X);
      var terms := SplitN(s, 3, X);
      && terms[0] == all[0]
      && (|all| >= 2 ==> terms[1] == all[1])
      && (|all| <= 3 ==> terms == all)
      && (|all| > 3 ==> |terms| == 3 && terms[2] == Join(all[2..], X) && X in terms[2])
  {
    var all := Split(s, X);
    if |all| <= 3 {
      SplitNFew(s, 3, X);
    } else {
      SplitNMany(s, 3, X);
    }
  }

  /** A line parses exactly when it is three `x`-separated fields, each an
      unsigned integer no larger than `i64::MAX`; the dimensions are the
      fields in order: length, width, height. */
  lemma ParseDimensionsOk(s: string)
    ensures var all := Split(s, X);
      ParseDimensions(s).Ok? <==> |all| == 3 && FieldOk(all[0]) && FieldOk(all[1]) && FieldOk(all[2])
    ensures var all := Split(s, X);
      ParseDimensions(s).Ok? ==>
        ParseDimensions(s).value ==
          Dimensions(ParseU64(all[0]).value, ParseU64(all[1]).value, ParseU64(all[2]).value)
  {
    SplitN3(s);
    var all := Split(s, X);
    var terms := SplitN(s, 3, X);
    if |all| > 3 && ParseU64(terms[2]).Some? {
      FieldOkHasNoX(terms[2]);
    }
  }

  /** The first field decides first: if it does not read as a dimension, its
      error is the line's error, whatever follows. */
  lemma ParseDimensionsFirstField(s: string)
    requires ParseField(Split(s, X)[0]).Err?
    ensures ParseDimensions(s) == Err(ParseField(Split(s, X)[0]).error)
  {
    SplitN3(s);
  }

  /** The first field, in order, that does not read as a dimension makes
      the line its own error: `InvalidType` or `TooLargeDimension`. The third
      field counts only when it is the last: with more fields, `splitn` hands
      the parser the rest of the line, which still holds an `x`. */
  lemma ParseDimensionsBadField(s: string, j: nat)
    requires var all := Split(s, X);
      && j < |all| && (j < 2 || |all| == 3)
      && !FieldOk(all[j])
      && forall k :: 0 <= k < j ==> FieldOk(all[k])
    ensures ParseDimensions(s) == Err(ParseField(Split(s, X)[j]).error)
  {
    SplitN3(s);
    var all := Split(s, X);
    var terms := SplitN(s, 3, X);
    assert terms[j] == all[j];
    if j >= 1 {
      assert FieldOk(terms[0]);
    }
    if j == 2 {
      assert FieldOk(terms[1]);
    }
  }

  /** `MissingDimensions` is the answer exactly when there are fewer than
      three fields and every field present reads as a dimension. */
  lemma ParseDimensionsMissing(s: string)
    ensures var all := Split(s, X);
      ParseDimensions(s) == Err(MissingDimensions) <==>
        |all| < 3 && forall k :: 0 <= k < |all| ==> FieldOk(all[k])
  {
    SplitN3(s);
    var all := Split(s, X);
    var terms := SplitN(s, 3, X);
    if |all| >= 3 {
      // All three pieces are there, so every failure is a field's own.
      assert |terms| == 3;
    } else {
      assert terms == all;
      if |all| == 2 {
        assert FieldOk(all[0]) && FieldOk(all[1]) <==> forall k :: 0 <= k < |all| ==> FieldOk(all[k]);
      }
    }
  }

  /** More than three fields never parse: with the first two fields good,
      the error is `InvalidType`, from the third piece that still holds an `x`. */
  lemma ParseDimensionsExtraFields(s: string)
    requires |Split(s, X)| > 3
    ensures ParseDimensions(s).Err?
    ensures FieldOk(Split(s, X)[0]) && FieldOk(Split(s, X)[1]) ==>
      ParseDimensions(s) == Err(InvalidType)
  {
    SplitN3(s);
    var terms := SplitN(s, 3, X);
    if ParseU64(terms[2]).Some? {
      FieldOkHasNoX(terms[2]);
    }
  }

  /** Every present read from a line has sides at least 0, so it needs a
      non-negative amount of paper and of ribbon. */
  lemma ParsedBoxNonNegative(s: string)
    requires ParseDimensions(s).Ok?
    ensures WrappingPaper(ParseDimensions(s).value) >= 0
    ensures Ribbon(ParseDimensions(s).value) >= 0
  {
    BoxFormulasNonNegative(ParseDimensions(s).value);
  }

  /** A line that starts with a minus sign is `InvalidType`. */
  lemma ParseDimensionsNegative(s: string)
    requires |s| > 0 && s[0] == '-'
    ensures ParseDimensions(s) == Err(InvalidType)
  {
    var all := Split(s, X);
    JoinSplit(s, X);
    if |all| == 1 {
      assert all[0] == s;
    } else {
      assert s == all[0] + [X] + Join(all[1..], X);
      assert s[|all[0]|] == X;
    }
    assert |all[0]| > 0 && all[0][0] == s[0];
    ParseDimensionsFirstField(s);
  }

  /** The text form `LxWxH` of a present, shortest decimal spelling. */
  function Render(d: Dimensions): string
    requires InRange(d)
  {
    ToDecimal(d.length) + [X] + ToDecimal(d.width) + [X] + ToDecimal(d.height)
  }

  lemma DecimalHasNoX(n: nat)
    ensures X !in ToDecimal(n)
  {
    var s := ToDecimal(n);
    forall k | 0 <= k < |s| ensures s[k] != X {
      assert IsDigit(s[k]);
    }
  }

  /** Parsing the text form of any present in range gives it back. */
  lemma ParseRender(d: Dimensions)
    requires InRange(d)
    ensures ParseDimensions(Render(d)) == Ok(d)
  {
    var (a, b, c) := (ToDecimal(d.length), ToDecimal(d.width), ToDecimal(d.height));
    DecimalHasNoX(d.length);
    DecimalHasNoX(d.width);
    DecimalHasNoX(d.height);
    assert [a, b, c][1..] == [b, c] && [b, c][1..] == [c];
    assert Join([c], X) == c;
    assert Join([b, c], X) == b + [X] + c;
    assert Join([a, b, c], X) == a + [X] + (b + [X] + c);
    assert Render(d) == Join([a, b, c], X);
    SplitJoin([a, b, c], X);
    ParseU64OfDecimal(d.length);
    ParseU64OfDecimal(d.width);
    ParseU64OfDecimal(d.height);
    ParseDimensionsOk(Render(d));
  }

  /** A field in `(i64::MAX, u64::MAX]` is `TooLargeDimension`; one beyond
      `u64::MAX` is `InvalidType`. */
  lemma ParseDimensionsTooLarge(n: nat, rest: string)
    requires n > I64_MAX
    ensures ParseDimensions(ToDecimal(n) + [X] + rest) ==
      if n <= U64_MAX then Err(TooLargeDimension) else Err(InvalidType)
  {
    var s := ToDecimal(n) + [X] + rest;
    DecimalHasNoX(n);
    IndexOfFirst(ToDecimal(n), X, rest);
    assert s[..|ToDecimal(n)|] == ToDecimal(n);
    ParseU64OfDecimal(n);
    ParseDimensionsFirstField(s);
  }

  /** The puzzle's line `2x3x4` is a 2 by 3 by 4 present. */
  lemma ParseDimensionsExample()
    ensures ParseDimensions("2x3x4") == Ok(Dimensions(2, 3, 4))
  {
    assert "2x3x4" == Render(Dimensions(2, 3, 4));
    ParseRender(Dimensions(2, 3, 4));
  }

  /** The puzzle's line `1x1x10` is a 1 by 1 by 10 present. */
  lemma ParseDimensionsExample2()
    ensures ParseDimensions("1x1x10") == Ok(Dimensions(1, 1, 10))
  {
    assert ToDecimal(10) == "10";
    assert "1x1x10" == Render(Dimensions(1, 1, 10));
    ParseRender(Dimensions(1, 1, 10));
  }

  /** Four fields are an error: `InvalidType`, not `TooManyDimensions`. */
  lemma ParseDimensionsFourFields()
    ensures ParseDimensions("2x3x4x5") == Err(InvalidType)
  {
    var parts := ["2", "3", "4", "5"];
    assert parts[1..] == ["3", "4", "5"] && parts[1..][1..] == ["4", "5"];
    assert parts[1..][1..][1..] == ["5"];
    assert "2x3x4x5" == Join(parts, X);
    SplitJoin(parts, X);
    ParseU64OfDecimal(2);
    ParseU64OfDecimal(3);
    ParseDimensionsExtraFields("2x3x4x5");
  }

  /** Two fields are `MissingDimensions`. */
  lemma ParseDimensionsTwoFields()
    ensures ParseDimensions("2x3") == Err(MissingDimensions)
  {
    var parts := ["2", "3"];
    assert parts[1..] == ["3"];
    assert "2x3" == Join(parts, X);
    SplitJoin(parts, X);
    ParseU64OfDecimal(2);
    ParseU64OfDecimal(3);
    ParseDimensionsMissing("2x3");
  }

  /** A negative length is `InvalidType`. */
  lemma ParseDimensionsNegativeExample()
    ensures ParseDimensions("-1x3x4") == Err(InvalidType)
  {
    ParseDimensionsNegative("-1x3x4");
  }

  // ---------------------------------------------------------------------
  // The strict totals

  /** When every line parses, part one is the wrapping paper and part two
      the ribbon added up over all the presents. */
  lemma PartsAllParse(input: string)
    requires forall k :: 0 <= k < |Lines(input)| ==> ParseDimensions(Lines(input)[k]).Ok?
    ensures Part1(input) == Ok(SumOf(Parsed(Lines(input), ParseDimensions), WrappingPaper))
    ensures Part2(input) == Ok(SumOf(Parsed(Lines(input), ParseDimensions), Ribbon))
  {
    TotalAllParse(Lines(input), ParseDimensions, WrappingPaper);
    TotalAllParse(Lines(input), ParseDimensions, Ribbon);
  }

  /** The first line that does not parse makes both parts its error. */
  lemma PartsFirstError(input: string, i: nat)
    requires i < |Lines(input)| && ParseDimensions(Lines(input)[i]).Err?
    requires forall k :: 0 <= k < i ==> ParseDimensions(Lines(input)[k]).Ok?
    ensures Part1(input) == Err(ParseDimensions(Lines(input)[i]).error)
    ensures Part2(input) == Err(ParseDimensions(Lines(input)[i]).error)
  {
    TotalFirstError(Lines(input), ParseDimensions, WrappingPaper, i);
    TotalFirstError(Lines(input), ParseDimensions, Ribbon, i);
  }

  /** Every line of the input reads as a present's dimensions. */
  predicate EveryLineParses(input: string) {
    var ls := Lines(input);
    forall k :: 0 <= k < |ls| ==> ParseDimensions(ls[k]).Ok?
  }

  /** Part one is a number exactly when every line parses: no line is
      skipped. */
  lemma Part1Ok(input: string)
    ensures Part1(input).Ok? <==> EveryLineParses(input)
  {
    TotalOk(Lines(input), ParseDimensions, WrappingPaper);
  }

  /** Part two is a number exactly when every line parses. */
  lemma Part2Ok(input: string)
    ensures Part2(input).Ok? <==> EveryLineParses(input)
  {
    TotalOk(Lines(input), ParseDimensions, Ribbon);
  }

  /** Two inputs one after the other, the first ending in a newline: the
      wrapping paper adds up, and an error in the first input wins. */
  lemma Part1Append(a: string, b: string)
    requires |a| == 0 || a[|a| - 1] == NL
    ensures Part1(a + b) == AddResults(Part1(a), Part1(b))
  {
    LinesAppend(a, b);
    TotalAppend(Lines(a), Lines(b), ParseDimensions, WrappingPaper);
  }

  /** The same for the ribbon. */
  lemma Part2Append(a: string, b: string)
    requires |a| == 0 || a[|a| - 1] == NL
    ensures Part2(a + b) == AddResults(Part2(a), Part2(b))
  {
    LinesAppend(a, b);
    TotalAppend(Lines(a), Lines(b), ParseDimensions, Ribbon);
  }

  /** A present on a line of its own: each part is that present's amount, or
      the line's error. */
  lemma PartsSingle(line: string)
    requires |line| > 0 && NL !in line && line[|line| - 1] != CR
    ensures Part1(line) == (var d :- ParseDimensions(line); Ok(WrappingPaper(d)))
    ensures Part2(line) == (var d :- ParseDimensions(line); Ok(Ribbon(d)))
  {
    LinesSingle(line);
    assert Lines(line) == [line];
    TotalSingle(line, ParseDimensions, WrappingPaper);
    TotalSingle(line, ParseDimensions, Ribbon);
  }

  /** The text form of a present is a single line. */
  lemma RenderOneLine(d: Dimensions)
    requires InRange(d)
    ensures |Render(d)| > 0 && NL !in Render(d) && Render(d)[|Render(d)| - 1] != CR
  {
    var (a, b, c) := (ToDecimal(d.length), ToDecimal(d.width), ToDecimal(d.height));
    forall t | t in [a, b, c] ensures NL !in t {
      forall k | 0 <= k < |t| ensures t[k] != NL {
        assert IsDigit(t[k]);
      }
    }
    assert Render(d)[|Render(d)| - 1] == c[|c| - 1];
    assert IsDigit(c[|c| - 1]);
  }

  /** An input holding one present in text form needs exactly that
      present's paper and ribbon. */
  lemma PartsRender(d: Dimensions)
    requires InRange(d)
    ensures Part1(Render(d)) == Ok(WrappingPaper(d))
    ensures Part2(Render(d)) == Ok(Ribbon(d))
  {
    RenderOneLine(d);
    ParseRender(d);
    PartsSingleOk(Render(d), d);
  }

  /** A one-line input that parses needs that present's paper and ribbon. */
  lemma PartsSingleOk(line: string, d: Dimensions)
    requires |line| > 0 && NL !in line && line[|line| - 1] != CR
    requires ParseDimensions(line) == Ok(d)
    ensures Part1(line) == Ok(WrappingPaper(d))
    ensures Part2(line) == Ok(Ribbon(d))
  {
    PartsSingle(line);
  }

  /** The puzzle's first present as a one-line input. */
  lemma PartsExample1()
    ensures Part1("2x3x4") == Ok(58) && Part2("2x3x4") == Ok(34)
  {
    var d := Dimensions(2, 3, 4);
    assert "2x3x4" == Render(d);
    PartsRender(d);
    BoxFormulasExamples();
  }

  /** The puzzle's second present as a one-line input. */
  lemma PartsExample2()
    ensures Part1("1x1x10") == Ok(43) && Part2("1x1x10") == Ok(14)
  {
    var d := Dimensions(1, 1, 10);
    assert ToDecimal(10) == "10";
    assert "1x1x10" == Render(d);
    PartsRender(d);
    BoxFormulasExamples();
  }

  /** A one-line input that does not parse makes both parts that line's error. */
  lemma PartsSingleError(line: string)
    requires |line| > 0 && NL !in line && line[|line| - 1] != CR
    requires ParseDimensions(line).Err?
    ensures Part1(line) == Err(ParseDimensions(line).error)
    ensures Part2(line) == Err(ParseDimensions(line).error)
  {
    PartsSingle(line);
  }

  // The puzzle's malformed lines as whole inputs: both parts fail with the
  // line's error.

  lemma PartsErrorFourFields()
    ensures Part1("2x3x4x5") == Err(InvalidType) && Part2("2x3x4x5") == Err(InvalidType)
  {
    var line := "2x3x4x5";
    assert NL !in line by {
      forall k | 0 <= k < 7 ensures line[k] != NL { }
    }
    ParseDimensionsFourFields();
    PartsSingleError(line);
  }

  lemma PartsErrorTwoFields()
    ensures Part1("2x3") == Err(MissingDimensions) && Part2("2x3") == Err(MissingDimensions)
  {
    var line := "2x3";
    assert NL !in line by {
      forall k | 0 <= k < 3 ensures line[k] != NL { }
    }
    ParseDimensionsTwoFields();
    PartsSingleError(line);
  }

  lemma PartsErrorNegative()
    ensures Part1("-1x3x4") == Err(InvalidType) && Part2("-1x3x4") == Err(InvalidType)
  {
    var line := "-1x3x4";
    assert NL !in line by {
      forall k | 0 <= k < 6 ensures line[k] != NL { }
    }
    ParseDimensionsNegativeExample();
    PartsSingleError(line);
  }
}
