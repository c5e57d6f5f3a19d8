/** Day 1 of 2015, "Not Quite Lisp": Santa follows a line of parentheses one
    character at a time, `(` one floor up and `)` one floor down, starting on
    floor 0. Part one is the floor reached at the end of the line; part two
    is the 1-based position of the first character that leads below floor 0.

    Only the first line of the input is read. Each panic of the solver is an
    error value here. */
module Day1 {
  import opened Results
  import opened Str

  /** Why a solver panics. */
  datatype Day1Error =
    | NoInputData                  // the input has no line at all
    | InvalidCharacter(ch: char)   // a character other than `(` or `)` was reached
    | NeverReachesBasement         // the floor never drops below 0

  /** The floor change one character asks for; `None` for any other character. */
  function Direction(ch: char): (d: Option<int>)
    ensures ch == '(' <==> d == Some(1)
    ensures ch == ')' <==> d == Some(-1)
    ensures d.Some? <==> IsDirection(ch)
  {
    match ch
    case '(' => Some(1)
    case ')' => Some(-1)
    case _ => None
  }

  /** The two characters of the instructions. */
  predicate IsDirection(ch: char) {
    ch == '(' || ch == ')'
  }

  predicate AllDirections(s: string) {
    forall k :: 0 <= k < |s| ==> IsDirection(s[k])
  }

  /** The floor reached after following `s`, counted independently of any
      scan: the number of `(` minus the number of `)`. */
  function Floor(s: string): int {
    multiset(s)['('] as int - multiset(s)[')'] as int
  }

  /** Reading one more character moves the floor by that character's step. */
  lemma FloorSnoc(s: string, ch: char)
    requires IsDirection(ch)
    ensures Floor(s + [ch]) == Floor(s) + Direction(ch).value
  {
    assert multiset(s + [ch]) == multiset(s) + multiset{ch};
  }

  /** Every prefix of a line of directions is a line of directions. */
  lemma AllDirectionsPrefix(s: string, n: nat)
    requires n <= |s| && AllDirections(s)
    ensures AllDirections(s[..n])
  {
  }

  /** The first line of the input, or `NoInputData` when there is none. */
  function InputLine(input: string): (r: Result<string, Day1Error>)
    ensures r.Err? <==> |input| == 0
    ensures r.Err? ==> r.error == NoInputData
    ensures r.Ok? ==> Some(r.value) == FirstLine(input)
  {
    match FirstLine(input)
    case None => Err(NoInputData)
    case Some(line) => Ok(line)
  }

  /** The steps of a line, read in order; the first character that is not a
      parenthesis stops the reading with `InvalidCharacter`. */
  function Steps(line: string): (r: Result<seq<int>, Day1Error>)
    ensures r.Ok? <==> AllDirections(line)
    ensures r.Ok? ==> |r.value| == |line|
    ensures r.Ok? ==> forall k :: 0 <= k < |line| ==> Some(r.value[k]) == Direction(line[k])
    ensures r.Err? ==> r.error.InvalidCharacter? && r.error.ch in line && !IsDirection(r.error.ch)
    decreases |line|
  {
    if |line| == 0 then Ok([])
    else match Direction(line[0])
      case None => Err(InvalidCharacter(line[0]))
      case Some(d) =>
        var rest :- Steps(line[1..]);
        assert line == [line[0]] + line[1..];
        Ok([d] + rest)
  }

  /** `parse_directions`: the steps of the first line of the input. */
  function ParseDirections(input: string): (r: Result<seq<int>, Day1Error>)
    ensures |input| == 0 ==> r == Err(NoInputData)
  {
    var line :- InputLine(input);
    Steps(line)
  }

  /** The steps added up. Steps of size at most 1 cannot take Santa further
      from floor 0 than there are steps. */
  function Sum(xs: seq<int>): (s: int)
    ensures (forall k :: 0 <= k < |xs| ==> -1 <= xs[k] <= 1) ==> -|xs| <= s <= |xs|
    decreases |xs|
  {
    if |xs| == 0 then 0 else xs[0] + Sum(xs[1..])
  }

  /** `part1`: the sum of all steps of the first line. */
  function Part1(input: string): (r: Result<int, Day1Error>)
    ensures r.Err? ==> r.error != NeverReachesBasement
    ensures r.Ok? ==> |input| > 0
    ensures r.Ok? ==> -|FirstLine(input).value| <= r.value <= |FirstLine(input).value|
  {
    var steps :- ParseDirections(input);
    Ok(Sum(steps))
  }

  /** The basement search of `part2`, resumed at index `i` on floor `floor`:
      characters are read one at a time and the search stops, with the 1-based
      position, as soon as the floor drops below 0. Nothing after that
      position is read. */
  function Basement(line: string, i: nat, floor: int): (r: Result<nat, Day1Error>)
    requires i <= |line|
    ensures r.Ok? ==> i < r.value <= |line|
    ensures r.Err? ==> r.error != NoInputData
    decreases |line| - i
  {
    if i == |line| then Err(NeverReachesBasement)
    else match Direction(line[i])
      case None => Err(InvalidCharacter(line[i]))
      case Some(d) =>
        if floor + d < 0 then Ok(i + 1) else Basement(line, i + 1, floor + d)
  }

  /** `part2`: the position of the character that first takes Santa below
      floor 0. */
  function Part2(input: string): (r: Result<nat, Day1Error>)
    ensures r.Ok? ==> r.value >= 1
    ensures r == Err(NoInputData) <==> |input| == 0
  {
    var line :- InputLine(input);
    Basement(line, 0, 0)
  }

  // ---------------------------------------------------------------------
  // Part one

  /** The sum of the steps is the floor they lead to. */
  lemma {:induction false} StepsSum(line: string)
    requires AllDirections(line)
    ensures Steps(line).Ok? && Sum(Steps(line).value) == Floor(line)
    decreases |line|
  {
    if |line| > 0 {
      StepsSum(line[1..]);
      assert line == [line[0]] + line[1..];
      assert multiset(line) == multiset{line[0]} + multiset(line[1..]);
    }
  }

  /** The first character that is not a parenthesis is the one reported. */
  lemma {:induction false} StepsFirstInvalid(line: string, i: nat)
    requires i < |line| && !IsDirection(line[i])
    requires AllDirections(line[..i])
    ensures Steps(line) == Err(InvalidCharacter(line[i]))
    decreases i
  {
    if i > 0 {
      assert line[1..][..i - 1] == line[..i][1..];
      StepsFirstInvalid(line[1..], i - 1);
      assert IsDirection(line[..i][0]);
    }
  }

  /** Part one is the floor of the first line: `(` count minus `)` count,
      when the line holds only parentheses. */
  lemma Part1Floor(input: string)
    requires |input| > 0
    ensures var line := FirstLine(input).value;
      AllDirections(line) ==> Part1(input) == Ok(Floor(line))
  {
    var line := FirstLine(input).value;
    if AllDirections(line) {
      StepsSum(line);
    }
  }

  /** Part one fails on the first character of the first line that is not a
      parenthesis, and on an input with no line at all. */
  lemma Part1Errors(input: string, i: nat)
    ensures |input| == 0 ==> Part1(input) == Err(NoInputData)
    ensures |input| > 0 && i < |FirstLine(input).value| ==>
      var line := FirstLine(input).value;
      !IsDirection(line[i]) && AllDirections(line[..i]) ==>
        Part1(input) == Err(InvalidCharacter(line[i]))
  {
    if |input| > 0 && i < |FirstLine(input).value| {
      var line := FirstLine(input).value;
      if !IsDirection(line[i]) && AllDirections(line[..i]) {
        StepsFirstInvalid(line, i);
      }
    }
  }

  /** Only the first line counts: whatever follows the first newline does not
      change either answer. */
  lemma OnlyFirstLine(line: string, rest1: string, rest2: string)
    requires NL !in line
    ensures Part1(line + [NL] + rest1) == Part1(line + [NL] + rest2)
    ensures Part2(line + [NL] + rest1) == Part2(line + [NL] + rest2)
  {
    FirstLineOf(line, rest1);
    FirstLineOf(line, rest2);
  }

  /** `parse_directions("()")` yields 1 then -1; `parse_directions("*")` fails
      on `*`. */
  lemma ParseDirectionsExamples()
    ensures ParseDirections("()") == Ok([1, -1])
    ensures ParseDirections("*") == Err(InvalidCharacter('*'))
  {
    LinesSingle("()");
    LinesSingle("*");
    assert FirstLine("()") == Some("()");
    assert FirstLine("*") == Some("*");
    assert AllDirections("()");
    var steps := Steps("()").value;
    assert Some(steps[0]) == Direction('(') && Some(steps[1]) == Direction(')');
    assert steps == [1, -1];
  }

  // The floors of the puzzle's examples, one lemma each.

  lemma Part1Example1()
    ensures Part1("(())") == Ok(0)
  {
    assert AllDirections("(())") by {
      assert forall k :: 0 <= k < 4 ==> IsDirection("(())"[k]);
    }
    assert Floor("(())") == 0 by {
      assert multiset("(())") == multiset{'(', '(', ')', ')'};
    }
    Part1Single("(())");
  }

  lemma Part1Example2()
    ensures Part1("()()") == Ok(0)
  {
    assert AllDirections("()()") by {
      assert forall k :: 0 <= k < 4 ==> IsDirection("()()"[k]);
    }
    assert Floor("()()") == 0 by {
      assert multiset("()()") == multiset{'(', '(', ')', ')'};
    }
    Part1Single("()()");
  }

  lemma Part1Example3()
    ensures Part1("(((") == Ok(3)
  {
    assert AllDirections("(((") by {
      assert forall k :: 0 <= k < 3 ==> IsDirection("((("[k]);
    }
    assert Floor("(((") == 3 by {
      assert multiset("(((") == multiset{'(', '(', '('};
    }
    Part1Single("(((");
  }

  lemma Part1Example4()
    ensures Part1("(()(()(") == Ok(3)
  {
    assert AllDirections("(()(()(") by {
      assert forall k :: 0 <= k < 7 ==> IsDirection("(()(()("[k]);
    }
    assert Floor("(()(()(") == 3 by {
      assert multiset("(()(()(") == multiset{'(', '(', '(', '(', '(', ')', ')'};
    }
    Part1Single("(()(()(");
  }

  lemma Part1Example5()
    ensures Part1("))(((((") == Ok(3)
  {
    assert AllDirections("))(((((") by {
      assert forall k :: 0 <= k < 7 ==> IsDirection("))((((("[k]);
    }
    assert Floor("))(((((") == 3 by {
      assert multiset("))(((((") == multiset{'(', '(', '(', '(', '(', ')', ')'};
    }
    Part1Single("))(((((");
  }

  lemma Part1Example6()
    ensures Part1("())") == Ok(-1)
  {
    assert AllDirections("())") by {
      assert forall k :: 0 <= k < 3 ==> IsDirection("())"[k]);
    }
    assert Floor("())") == -1 by {
      assert multiset("())") == multiset{'(', ')', ')'};
    }
    Part1Single("())");
  }

  lemma Part1Example7()
    ensures Part1("))(") == Ok(-1)
  {
    assert AllDirections("))(") by {
      assert forall k :: 0 <= k < 3 ==> IsDirection("))("[k]);
    }
    assert Floor("))(") == -1 by {
      assert multiset("))(") == multiset{'(', ')', ')'};
    }
    Part1Single("))(");
  }

  lemma Part1Example8()
    ensures Part1(")))") == Ok(-3)
  {
    assert AllDirections(")))") by {
      assert forall k :: 0 <= k < 3 ==> IsDirection(")))"[k]);
    }
    assert Floor(")))") == -3 by {
      assert multiset(")))") == multiset{')', ')', ')'};
    }
    Part1Single(")))");
  }

  lemma Part1Example9()
    ensures Part1(")())())") == Ok(-3)
  {
    assert AllDirections(")())())") by {
      assert forall k :: 0 <= k < 7 ==> IsDirection(")())())"[k]);
    }
    assert Floor(")())())") == -3 by {
      assert multiset(")())())") == multiset{'(', '(', ')', ')', ')', ')', ')'};
    }
    Part1Single(")())())");
  }

  /** A one-line input of parentheses ends on its floor. */
  lemma Part1Single(line: string)
    requires |line| > 0 && AllDirections(line)
    ensures Part1(line) == Ok(Floor(line))
  {
    assert NL !in line by {
      forall k | 0 <= k < |line| ensures line[k] != NL { }
    }
    LinesSingle(line);
    assert line[|line| - 1] != CR;
    Part1Floor(line);
  }

  // ---------------------------------------------------------------------
  // Part two

  /** The search state: `floor` is the floor after the first `i` characters,
      all of which are parentheses, and no prefix so far went below 0. */
  ghost predicate Searching(line: string, i: nat, floor: int)
    requires i <= |line|
  {
    && AllDirections(line[..i])
    && floor == Floor(line[..i])
    && forall q :: 0 < q <= i ==> Floor(line[..q]) >= 0
  }

  /** `p` is where Santa first goes below floor 0: the first `p` characters
      are parentheses, their floor is negative, and no shorter prefix's is. */
  ghost predicate FirstBasement(line: string, p: nat)
  {
    && 1 <= p <= |line|
    && AllDirections(line[..p])
    && Floor(line[..p]) < 0
    && forall q :: 0 < q < p ==> Floor(line[..q]) >= 0
  }

  /** No prefix of the line goes below floor 0. */
  ghost predicate NeverBelowZero(line: string)
  {
    forall q :: 0 < q <= |line| ==> Floor(line[..q]) >= 0
  }

  /** One more parenthesis keeps a prefix all parentheses. */
  lemma AllDirectionsSnoc(line: string, i: nat)
    requires i < |line| && AllDirections(line[..i]) && IsDirection(line[i])
    ensures AllDirections(line[..i + 1])
  {
    assert forall k :: 0 <= k < i ==> line[..i + 1][k] == line[..i][k];
  }

  /** Taking one more step keeps the search state. */
  lemma SearchingStep(line: string, i: nat, floor: int)
    requires i < |line| && Searching(line, i, floor)
    requires IsDirection(line[i]) && floor + Direction(line[i]).value >= 0
    ensures Searching(line, i + 1, floor + Direction(line[i]).value)
  {
    assert line[..i + 1] == line[..i] + [line[i]];
    FloorSnoc(line[..i], line[i]);
    AllDirectionsSnoc(line, i);
  }

  /** A step below floor 0 from a search state is the first basement position. */
  lemma SearchingFound(line: string, i: nat, floor: int)
    requires i < |line| && Searching(line, i, floor)
    requires IsDirection(line[i]) && floor + Direction(line[i]).value < 0
    ensures FirstBasement(line, i + 1)
  {
    assert line[..i + 1] == line[..i] + [line[i]];
    FloorSnoc(line[..i], line[i]);
    AllDirectionsSnoc(line, i);
  }

  /** A position the search returns is the first basement position. */
  lemma {:induction false} BasementFound(line: string, i: nat, floor: int)
    requires i <= |line| && Searching(line, i, floor)
    ensures Basement(line, i, floor).Ok? ==> FirstBasement(line, Basement(line, i, floor).value)
    decreases |line| - i
  {
    if i < |line| && IsDirection(line[i]) {
      var d := Direction(line[i]).value;
      if floor + d >= 0 {
        SearchingStep(line, i, floor);
        BasementFound(line, i + 1, floor + d);
      } else {
        SearchingFound(line, i, floor);
      }
    }
  }

  /** The search runs off the end of the line only when every character is
      a parenthesis and no prefix goes below floor 0. */
  lemma {:induction false} BasementExhausted(line: string, i: nat, floor: int)
    requires i <= |line| && Searching(line, i, floor)
    ensures Basement(line, i, floor) == Err(NeverReachesBasement) ==>
      AllDirections(line) && NeverBelowZero(line)
    decreases |line| - i
  {
    if i == |line| {
      assert line[..i] == line;
    } else if IsDirection(line[i]) {
      var d := Direction(line[i]).value;
      if floor + d >= 0 {
        SearchingStep(line, i, floor);
        BasementExhausted(line, i + 1, floor + d);
      }
    }
  }

  /** An invalid character the search reports is one it reached while still
      at or above floor 0. */
  lemma {:induction false} BasementStopsAtInvalid(line: string, i: nat, floor: int)
    requires i <= |line| && Searching(line, i, floor)
    ensures var r := Basement(line, i, floor);
      r.Err? && r.error.InvalidCharacter? ==>
        exists j :: i <= j < |line| && line[j] == r.error.ch && !IsDirection(line[j])
          && Searching(line, j, Floor(line[..j]))
    decreases |line| - i
  {
    if i < |line| && IsDirection(line[i]) {
      var d := Direction(line[i]).value;
      if floor + d >= 0 {
        SearchingStep(line, i, floor);
        BasementStopsAtInvalid(line, i + 1, floor + d);
      }
    }
  }

  /** Part two, when it succeeds, is the first position below floor 0, and
      the floor there is exactly -1, the first basement level. */
  lemma Part2Sound(input: string)
    ensures Part2(input).Ok? ==>
      var line := FirstLine(input).value;
      FirstBasement(line, Part2(input).value) && Floor(line[..Part2(input).value]) == -1
  {
    if |input| > 0 {
      var line := FirstLine(input).value;
      assert line[..0] == [];
      BasementFound(line, 0, 0);
      if Part2(input).Ok? {
        var p := Part2(input).value;
        if p > 1 {
          assert line[..p] == line[..p - 1] + [line[p - 1]];
          AllDirectionsPrefix(line[..p], p - 1);
          assert line[..p][..p - 1] == line[..p - 1];
          FloorSnoc(line[..p - 1], line[p - 1]);
        }
      }
    }
  }

  /** Every basement position is found, whatever follows it on the line:
      the search never reads past the position it returns. */
  lemma {:induction false} BasementComplete(line: string, i: nat, floor: int, p: nat)
    requires FirstBasement(line, p) && i < p && Searching(line, i, floor)
    ensures Basement(line, i, floor) == Ok(p)
    decreases |line| - i
  {
    assert line[..p][..i + 1] == line[..i + 1];
    assert line[..p][i] == line[i];
    assert IsDirection(line[i]);
    var d := Direction(line[i]).value;
    assert line[..i + 1] == line[..i] + [line[i]];
    FloorSnoc(line[..i], line[i]);
    if i + 1 < p {
      assert Floor(line[..i + 1]) >= 0;
      SearchingStep(line, i, floor);
      BasementComplete(line, i + 1, floor + d, p);
    }
  }

  /** Part two finds the first basement position of the first line. */
  lemma Part2Complete(input: string, p: nat)
    requires |input| > 0 && FirstBasement(FirstLine(input).value, p)
    ensures Part2(input) == Ok(p)
  {
    var line := FirstLine(input).value;
    assert line[..0] == [];
    BasementComplete(line, 0, 0, p);
  }

  /** Part two fails with `NeverReachesBasement` exactly when the first line
      is all parentheses and never goes below floor 0. */
  lemma Part2Never(input: string)
    requires |input| > 0
    ensures var line := FirstLine(input).value;
      Part2(input) == Err(NeverReachesBasement) <==> AllDirections(line) && NeverBelowZero(line)
  {
    var line := FirstLine(input).value;
    assert line[..0] == [];
    BasementExhausted(line, 0, 0);
    if AllDirections(line) && NeverBelowZero(line) {
      BasementNever(line, 0, 0);
    }
  }

  lemma {:induction false} BasementNever(line: string, i: nat, floor: int)
    requires i <= |line| && Searching(line, i, floor)
    requires AllDirections(line) && NeverBelowZero(line)
    ensures Basement(line, i, floor) == Err(NeverReachesBasement)
    decreases |line| - i
  {
    if i < |line| {
      var d := Direction(line[i]).value;
      assert line[..i + 1] == line[..i] + [line[i]];
      FloorSnoc(line[..i], line[i]);
      assert Floor(line[..i + 1]) >= 0;
      SearchingStep(line, i, floor);
      BasementNever(line, i + 1, floor + d);
    }
  }

  /** Part two reaches an invalid character only if Santa is still at or
      above floor 0 when that character is read; it then fails on it. */
  lemma {:induction false} BasementInvalid(line: string, i: nat, floor: int, j: nat)
    requires i <= j < |line| && Searching(line, i, floor)
    requires !IsDirection(line[j]) && Searching(line, j, Floor(line[..j]))
    ensures Basement(line, i, floor) == Err(InvalidCharacter(line[j]))
    decreases j - i
  {
    if i < j {
      assert line[..j][..i + 1] == line[..i + 1];
      assert line[..j][i] == line[i];
      var d := Direction(line[i]).value;
      assert line[..i + 1] == line[..i] + [line[i]];
      FloorSnoc(line[..i], line[i]);
      assert Floor(line[..i + 1]) >= 0;
      SearchingStep(line, i, floor);
      BasementInvalid(line, i + 1, floor + d, j);
    }
  }

  /** The puzzle's examples, and laziness: in `)*` the search stops at
      position 1 and never reads `*`, while part one reads it and fails. */
  lemma Part2Examples()
    ensures Part2(")") == Ok(1)
    ensures Part2("()())") == Ok(5)
    ensures Part2(")*") == Ok(1)
    ensures Part1(")*") == Err(InvalidCharacter('*'))
    ensures Part2("()") == Err(NeverReachesBasement)
  {
    LinesSingle(")");
    LinesSingle("()())");
    LinesSingle(")*");
    LinesSingle("()");
    StepsFirstInvalid(")*", 1);
  }
}
