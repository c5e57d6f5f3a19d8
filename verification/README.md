# Advent of Code 2015, days 1 and 2, in Dafny

This project models the solvers for the first two puzzles of Advent of Code
2015 in the `adventofcode` Rust repository, together with the standard
library behaviour they depend on.

- **Day 1, "Not Quite Lisp"** (`src/aoc2015/day1.rs`).
  - `parse_directions` reads the first line of the input and turns `(` into
    +1 and `)` into -1. It panics on any other character, and on an input
    with no line.
  - `part1` sums these steps to get the final floor.
  - `part2` scans the running floor and returns the 1-based position of the
    first character that takes it below 0. It panics if that never happens.
  - The iterators are lazy, so `part2` stops reading at the position it
    returns.
- **Day 2, "I Was Told There Would Be No Math"** (`src/aoc2015/day2.rs`).
  - `Dimensions::from_str` parses one `LxWxH` line with `splitn(3, 'x')`.
    Each field goes through `u64::from_str` and then `i64::try_from`.
  - `wrapping_paper` and `ribbon` are the two box formulas.
  - `part1` and `part2` add one of them up over `input.lines()` as a strict
    `Result` sum: the first line that does not parse makes the whole answer
    that line's error.

The modules follow that structure:

| module | file | contents |
|---|---|---|
| `Results` | `results.dfy` | `Option` and `Result` with early-return (`:-`) support |
| `Str` | `str.dfy` | `split`, `splitn` and `lines` of Rust's `str`, with their algebra |
| `Decimal` | `decimal.dfy` | `u64::from_str`, decimal spelling, the `u64`/`i64` bounds |
| `Sums` | `sums.dfy` | `Iterator::sum` into a `Result` over parsed and measured lines |
| `Day1` | `day1.dfy` | directions, floors, the basement search |
| `Day2` | `day2.dfy` | dimensions, their parser, the two formulas, the two totals |

Modelling choices:

- Every panic of the day 1 solver is an error value of type `Day1Error`:
  - `NoInputData` for `expect("No input data found.")`;
  - `InvalidCharacter(ch)` for the `panic!` on a foreign character;
  - `NeverReachesBasement` for the final `expect` of `part2`.
- Laziness is kept. `Day1.Basement` reads one character at a time and
  returns as soon as the floor goes negative, so `part2(")*")` is 1, while
  `part1(")*")` fails on `*`.
- Integers are unbounded. The bounds that the parser checks (`u64::MAX`,
  `i64::MAX`) are explicit constants.
- The code, not the puzzle text or the comments, decides behaviour where they
  differ:
  - The comment at `day2.rs:63-65` says invalid lines are filtered out. The
    code sums into a `Result`, so the first invalid line's error is returned
    instead. `Day2.Part2Ok` proves this.
  - `TooManyDimensions` is never returned. `splitn(3, 'x')` leaves every
    further `x` inside the third piece, so a line with four or more fields
    fails on that third piece with `InvalidType`, and the later check for
    leftover pieces never fires. `Day2.ParseDimensions` (its second ensures)
    and `Day2.ParseDimensionsExtraFields` prove this.

## Model

| member | source | states |
|---|---|---|
| Str.Split | src/aoc2015/day2.rs:134 | `split` yields at least one piece and no piece holds the separator; `Str.JoinSplit` and `Str.SplitJoin` are its inverse laws with `Join` |
| Str.SplitN | src/aoc2015/day2.rs:134 | `splitn(n)` yields at most `n` pieces, and at least one when `n >= 1`; `Str.SplitNFew` and `Str.SplitNMany` relate its pieces to those of `split` |
| Str.SplitNFew | src/aoc2015/day2.rs:134 | while a line has at most `n` `x`-separated pieces, `splitn(n, 'x')` yields exactly the pieces of `split('x')` |
| Str.SplitNMany | src/aoc2015/day2.rs:134 | beyond `n` pieces, `splitn(n)` yields the first `n - 1` pieces of `split` and, last, all remaining pieces joined back with their separators |
| Str.JoinSplit | src/aoc2015/day2.rs:134 | splitting at a separator loses nothing: joining the pieces gives back the line |
| Str.SplitJoin | src/aoc2015/day2.rs:134 | separator-free pieces joined and split again come back unchanged |
| Str.SplitCount | src/aoc2015/day2.rs:134 | a line splits into one piece more than it has separators |
| Str.StripCR | src/aoc2015/day2.rs:31-32 | the line with one trailing carriage return removed, and unchanged when it has none; the result is a prefix of the line |
| Str.Lines | src/aoc2015/day2.rs:31-32 | `lines()` yields no line exactly for the empty input, and no line holds a newline |
| Str.LinesTrailingNewline | src/aoc2015/day2.rs:31-32 | a newline at the very end of the input adds no empty line |
| Str.LinesOfTerminated | src/aoc2015/day2.rs:31-32 | lines written out newline-terminated are read back unchanged by `lines()`, when none holds a newline or ends in a carriage return |
| Str.LinesAppend | src/aoc2015/day2.rs:31-32 | the lines of two inputs, the first ending in a newline, are the lines of the first followed by those of the second |
| Str.FirstLine | src/aoc2015/day1.rs:77 | `lines().next()` is absent exactly for the empty input, and the first line holds no newline |
| Str.FirstLineOf | src/aoc2015/day1.rs:77 | the first line is the text before the first newline, with a trailing carriage return removed |
| Decimal.ParseU64 | src/aoc2015/day2.rs:139 | an accepted field is an optional `+` then digits only, and its value is at most `u64::MAX` |
| Decimal.ParseU64OfDecimal | src/aoc2015/day2.rs:139 | the decimal spelling of a number, with or without a `+`, is accepted exactly when the number is at most `u64::MAX`, and reads back as that number |
| Decimal.ParseU64LeadingZero | src/aoc2015/day2.rs:139 | leading zeros do not change the value read |
| Decimal.ValueOfDecimal | src/aoc2015/day2.rs:139 | the digits of a number's decimal spelling have that number as their value |
| Sums.StrictSum | src/aoc2015/day2.rs:34 | the `Result` sum of nothing is `Ok(0)`, and an error returned is the error of one of the summands; `Sums.StrictSumOk` and `Sums.StrictSumFirstError` pin down which |
| Sums.AddResults | src/aoc2015/day2.rs:34 | two partial sums combine to a number exactly when both are numbers, and an error in the first wins |
| Sums.MeasureLine | src/aoc2015/day2.rs:33 | `parse(line).map(measure)`: a number exactly when the line parses, the measure of what it parses to, else the parse error |
| Sums.StrictSumOk | src/aoc2015/day2.rs:34 | a `Result` sum is a number exactly when every summand is |
| Sums.StrictSumFirstError | src/aoc2015/day2.rs:34 | a `Result` sum is the first error among its summands |
| Sums.StrictSumAppend | src/aoc2015/day2.rs:34 | the `Result` sum of two runs is the combination of their sums, the first run's error winning |
| Sums.Total | src/aoc2015/day2.rs:31-34 | the total over no lines is `Ok(0)`, and an error returned is the parse error of one of the lines; `Sums.TotalOk` and `Sums.TotalFirstError` pin down which |
| Sums.MeasuredAll | src/aoc2015/day2.rs:33 | the `k`-th summand is the `k`-th line parsed and measured |
| Sums.TotalAllParse | src/aoc2015/day2.rs:31-34 | when every line parses, the total is the measure added up over the parsed values: parsing first and summing afterwards gives the same number |
| Sums.TotalFirstError | src/aoc2015/day2.rs:31-34 | the first line that does not parse makes the total that line's error |
| Sums.TotalOk | src/aoc2015/day2.rs:31-34 | the total is a number exactly when every line parses; no line is skipped |
| Sums.TotalAppend | src/aoc2015/day2.rs:31-34 | the total over two runs of lines is the combination of their totals |
| Sums.TotalSingle | src/aoc2015/day2.rs:31-34 | the total over a single line is that line's measure or error |
| Sums.MeasuredAppend | src/aoc2015/day2.rs:33 | measuring lines distributes over concatenation |
| Day1.Direction | src/aoc2015/day1.rs:81-85 | `(` is +1, `)` is -1, and a character has a step exactly when it is one of the two of `IsDirection` |
| Day1.InputLine | src/aoc2015/day1.rs:77 | the line read is the first line of the input; `NoInputData` exactly when the input is empty |
| Day1.Steps | src/aoc2015/day1.rs:81-85 | the steps exist exactly when the line is all parentheses, one per character with that character's step; otherwise the error names a character of the line that is not a parenthesis |
| Day1.ParseDirections | src/aoc2015/day1.rs:75-86 | the empty input is `NoInputData` |
| Day1.Sum | src/aoc2015/day1.rs:38 | steps of size at most 1 add up to no more than their number in either direction; `Day1.StepsSum` relates the sum to the floor |
| Day1.Part1 | src/aoc2015/day1.rs:35-39 | part one never fails with the basement error, succeeds only on a non-empty input, and ends no further from floor 0 than the first line is long |
| Day1.Basement | src/aoc2015/day1.rs:57-64 | a position found lies after the resume point and within the line; the search never reports missing input |
| Day1.Part2 | src/aoc2015/day1.rs:54-65 | a basement position is 1-based, and `NoInputData` is the answer exactly for the empty input, the panic of `parse_directions` that part two reaches too |
| Day1.StepsSum | src/aoc2015/day1.rs:36-38 | the sum of a line's steps is its floor: the count of `(` minus the count of `)` |
| Day1.StepsFirstInvalid | src/aoc2015/day1.rs:81-85 | the character reported is the first one that is not a parenthesis |
| Day1.Part1Floor | src/aoc2015/day1.rs:35-39 | part one is the `(` count minus the `)` count of the first line, when that line is all parentheses |
| Day1.Part1Errors | src/aoc2015/day1.rs:75-86 | part one fails with `NoInputData` on empty input and with the first foreign character of the first line |
| Day1.Part1Single | src/aoc2015/day1.rs:35-39 | a one-line input of parentheses gives its floor |
| Day1.OnlyFirstLine | src/aoc2015/day1.rs:76-77 | nothing after the first newline changes either part |
| Day1.ParseDirectionsExamples | src/aoc2015/day1.rs:112-124 | `()` parses to +1 then -1, and `*` fails on `*` |
| Day1.Part1Example1 | src/aoc2015/day1.rs:94 | `(())` ends on floor 0 |
| Day1.Part1Example2 | src/aoc2015/day1.rs:95 | `()()` ends on floor 0 |
| Day1.Part1Example3 | src/aoc2015/day1.rs:96 | `(((` ends on floor 3 |
| Day1.Part1Example4 | src/aoc2015/day1.rs:97 | `(()(()(` ends on floor 3 |
| Day1.Part1Example5 | src/aoc2015/day1.rs:98 | `))(((((` ends on floor 3 |
| Day1.Part1Example6 | src/aoc2015/day1.rs:99 | `())` ends on floor -1 |
| Day1.Part1Example7 | src/aoc2015/day1.rs:100 | `))(` ends on floor -1 |
| Day1.Part1Example8 | src/aoc2015/day1.rs:101 | `)))` ends on floor -3 |
| Day1.Part1Example9 | src/aoc2015/day1.rs:102 | `)())())` ends on floor -3 |
| Day1.SearchingStep | src/aoc2015/day1.rs:58-61 | one more step at or above floor 0 keeps the running floor equal to the floor of the prefix read |
| Day1.BasementFound | src/aoc2015/day1.rs:57-63 | a position the search returns is the first one whose prefix is all parentheses with a negative floor |
| Day1.BasementExhausted | src/aoc2015/day1.rs:57-64 | the search runs off the end only when the line is all parentheses and no prefix goes below 0 |
| Day1.BasementStopsAtInvalid | src/aoc2015/day1.rs:57-63 | an invalid character the search reports is one it reached while every earlier prefix stayed at or above floor 0 |
| Day1.Part2Sound | src/aoc2015/day1.rs:54-65 | a position part two returns is the first one below floor 0, and the floor there is exactly -1 |
| Day1.BasementComplete | src/aoc2015/day1.rs:57-63 | the search finds the first basement position, whatever follows it |
| Day1.Part2Complete | src/aoc2015/day1.rs:54-65 | part two returns the first basement position of the first line whenever there is one |
| Day1.Part2Never | src/aoc2015/day1.rs:64 | part two fails with the basement error exactly when the first line is all parentheses and never goes below 0 |
| Day1.BasementNever | src/aoc2015/day1.rs:57-64 | on a line that is all parentheses and never goes below 0, the search ends with the basement error |
| Day1.BasementInvalid | src/aoc2015/day1.rs:57-63 | a foreign character reached before the basement makes the search fail on it |
| Day1.Part2Examples | src/aoc2015/day1.rs:107-108 | `)` gives 1 and `()())` gives 5; `)*` gives 1 without reading `*` while part one fails on it; `()` never reaches the basement |
| Day2.ParseField | src/aoc2015/day2.rs:135-140 | a field reads exactly when it is an unsigned 64-bit integer no larger than `i64::MAX`, and then as that integer; `InvalidType` exactly when `u64::from_str` rejects it; `TooLargeDimension` exactly for values in `(i64::MAX, u64::MAX]` |
| Day2.Field | src/aoc2015/day2.rs:136-138 | an absent piece is `MissingDimensions` |
| Day2.ParseTerms | src/aoc2015/day2.rs:135-159 | the pieces give dimensions exactly when there are three and each reads as a dimension; `MissingDimensions` exactly when fewer pieces all read; `TooManyDimensions` exactly when more than three pieces have three good first ones; otherwise the first bad piece of the three makes the result its own error |
| Day2.ParseDimensions | src/aoc2015/day2.rs:130-160 | parsed dimensions are all in `0..=i64::MAX`, and `TooManyDimensions` is never the answer |
| Day2.Min3 | src/aoc2015/day2.rs:81 | the least of three numbers: no larger than any, and equal to one of them |
| Day2.Part1 | src/aoc2015/day2.rs:30-36 | the empty input needs no paper |
| Day2.Part2 | src/aoc2015/day2.rs:62-71 | the empty input needs no ribbon |
| Day2.WrappingPaper | src/aoc2015/day2.rs:74-84 | the paper beyond the surface area `2lw + 2wh + 2hl` is the area of one side and no larger than any side's area; `Day2.BoxFormulasSymmetric` is its partner |
| Day2.Ribbon | src/aoc2015/day2.rs:87-97 | the ribbon beyond the volume is the perimeter of one face and no longer than any face's perimeter; `Day2.BoxFormulasSymmetric` is its partner |
| Day2.BoxFormulasNonNegative | src/aoc2015/day2.rs:74-97 | boxes with non-negative sides need non-negative paper and ribbon |
| Day2.BoxFormulasSymmetric | src/aoc2015/day2.rs:74-97 | turning the box over changes neither amount |
| Day2.BoxFormulasExamples | src/aoc2015/day2.rs:186-196 | 2x3x4 needs 58 of paper and 34 of ribbon; 1x1x10 needs 43 and 14 |
| Day2.FieldOkHasNoX | src/aoc2015/day2.rs:139 | a field that reads as a number holds no `x` |
| Day2.SplitN3 | src/aoc2015/day2.rs:134 | the three pieces handed to the parser: the first two fields, then everything after the second `x` |
| Day2.ParseDimensionsOk | src/aoc2015/day2.rs:130-160 | a line parses exactly when it is three `x`-separated fields, each an unsigned integer no larger than `i64::MAX`, and the result is those fields as length, width and height |
| Day2.ParseDimensionsBadField | src/aoc2015/day2.rs:135-153 | the first field of the line that does not read as a dimension makes the line that field's error (`InvalidType` or `TooLargeDimension`), for the width and height as for the length; the third field counts only when it is the last |
| Day2.ParseDimensionsFirstField | src/aoc2015/day2.rs:135-140 | a bad first field is the line's error, whatever follows |
| Day2.ParseDimensionsMissing | src/aoc2015/day2.rs:136-150 | `MissingDimensions` exactly when there are fewer than three fields and every field present reads as a dimension |
| Day2.ParseDimensionsExtraFields | src/aoc2015/day2.rs:147-157 | more than three fields never parse; with two good first fields the error is `InvalidType` |
| Day2.ParsedBoxNonNegative | src/aoc2015/day2.rs:74-103 | every parsed present needs non-negative paper and ribbon |
| Day2.ParseDimensionsNegative | src/aoc2015/day2.rs:135-140 | a line starting with `-` is `InvalidType` |
| Day2.ParseRender | src/aoc2015/day2.rs:130-160 | the `LxWxH` text of any present in range parses back to that present |
| Day2.ParseDimensionsTooLarge | src/aoc2015/day2.rs:135-140 | a first field above `i64::MAX` is `TooLargeDimension` up to `u64::MAX` and `InvalidType` beyond |
| Day2.ParseDimensionsExample | src/aoc2015/day2.rs:169 | `2x3x4` is a 2 by 3 by 4 present |
| Day2.ParseDimensionsExample2 | src/aoc2015/day2.rs:170 | `1x1x10` is a 1 by 1 by 10 present |
| Day2.ParseDimensionsFourFields | src/aoc2015/day2.rs:175 | `2x3x4x5` is `InvalidType` |
| Day2.ParseDimensionsTwoFields | src/aoc2015/day2.rs:176 | `2x3` is `MissingDimensions` |
| Day2.ParseDimensionsNegativeExample | src/aoc2015/day2.rs:177 | `-1x3x4` is `InvalidType` |
| Day2.PartsAllParse | src/aoc2015/day2.rs:30-71 | when every line parses, the parts are the paper and the ribbon added up over all parsed presents |
| Day2.PartsFirstError | src/aoc2015/day2.rs:30-71 | the first line that does not parse makes both parts its error |
| Day2.Part1Ok | src/aoc2015/day2.rs:30-36 | part one is a number exactly when every line parses |
| Day2.Part2Ok | src/aoc2015/day2.rs:62-71 | part two is a number exactly when every line parses, so no invalid line is filtered out |
| Day2.Part1Append | src/aoc2015/day2.rs:30-36 | for two inputs, the first ending in a newline, the paper for both is the sum of the two, and an error in the first wins |
| Day2.Part2Append | src/aoc2015/day2.rs:62-71 | the same for the ribbon |
| Day2.PartsSingle | src/aoc2015/day2.rs:30-71 | for a one-line input, each part is that present's amount or the line's error |
| Day2.PartsSingleOk | src/aoc2015/day2.rs:30-71 | a one-line input that parses needs exactly that present's paper and ribbon |
| Day2.RenderOneLine | src/aoc2015/day2.rs:130-160 | the `LxWxH` text of a present is one non-empty line that does not end in a carriage return |
| Day2.PartsRender | src/aoc2015/day2.rs:30-71 | an input holding one present's `LxWxH` text needs exactly that present's paper and ribbon |
| Day2.PartsSingleError | src/aoc2015/day2.rs:174-178 | a one-line input that does not parse makes both parts that line's error |
| Day2.PartsExample1 | src/aoc2015/day2.rs:168-183 | the input `2x3x4` needs 58 of paper and 34 of ribbon |
| Day2.PartsExample2 | src/aoc2015/day2.rs:168-183 | the input `1x1x10` needs 43 of paper and 14 of ribbon |
| Day2.PartsErrorFourFields | src/aoc2015/day2.rs:175 | the input `2x3x4x5` makes both parts `InvalidType` |
| Day2.PartsErrorTwoFields | src/aoc2015/day2.rs:176 | the input `2x3` makes both parts `MissingDimensions` |
| Day2.PartsErrorNegative | src/aoc2015/day2.rs:177 | the input `-1x3x4` makes both parts `InvalidType` |

## Left out

- `load` in `src/utils.rs` reads the puzzle input from disk. This is I/O, so
  the model takes the input as a string parameter.
- The tests in `src/aoc2015.rs` compare against answers for data files that
  are not part of this model.
- The error messages attached by `thiserror` are not modelled.
- The `ParseIntError` and `TryFromIntError` payloads inside `InvalidType`
  and `TooLargeDimension` are not modelled. Each error is a bare variant, so
  the error kind of `u64::from_str` (empty, invalid digit, overflow) is not
  told apart.
- The conversion `map_err(|e| e.into())` that boxes the error into
  `AocResult` is not modelled. `Day2.Part1` and `Day2.Part2` return
  `ParseDimensionError` directly.
- Day2.WrappingPaper: does not model 64-bit overflow of `i64` multiplication
  and addition, because integers are unbounded. A panic in debug builds, or
  wrap-around in release builds, for dimensions near `i64::MAX` is not
  represented.
- Day2.Ribbon: does not model 64-bit overflow, for the same reason.
- Day2.Part1: does not model overflow of the `i64` sum over many lines, for
  the same reason.
- Day2.Part2: does not model overflow of the `i64` sum over many lines, for
  the same reason.
- Day1.Part1: does not model overflow of the `i64` floor sum, for the same
  reason.
- Day1.Part2: does not model overflow of the `usize` position or the `i64`
  running floor, for the same reason.
- Str.Lines: models `lines()` as stripping one trailing `\r` from every line,
  including a lone `\r` at the very end of the input. Newer Rust releases
  keep that final `\r` when no `\n` follows it.
- `Dimensions::new` is the datatype constructor `Day2.Dimensions`.
