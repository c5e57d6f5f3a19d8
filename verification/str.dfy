/** The parts of Rust's `str` API that the solvers rely on: finding a
    character, `split`, `splitn` and `lines`. A string is a sequence of
    characters; every separator involved is ASCII, so the byte/char
    distinction of UTF-8 never shows. */
module Str {
  import opened Results

  const NL: char := '\n'
  const CR: char := '\r'

  /** Index of the first occurrence of `c` in `s`, or `|s|` when there is none. */
  function IndexOf(s: string, c: char): (i: nat)
    ensures i <= |s|
    ensures i < |s| ==> s[i] == c
    ensures c !in s[..i]
  {
    if |s| == 0 then 0
    else if s[0] == c then 0
    else
      var j := IndexOf(s[1..], c);
      assert s[..1 + j] == [s[0]] + s[1..][..j];
      1 + j
  }

  /** The first `c` of `a + [c] + b` is the one right after `a` when `a` holds none. */
  lemma {:induction false} IndexOfFirst(a: string, c: char, b: string)
    requires c !in a
    ensures IndexOf(a + [c] + b, c) == |a|
    decreases |a|
  {
    if |a| > 0 {
      assert (a + [c] + b)[1..] == a[1..] + [c] + b;
      IndexOfFirst(a[1..], c, b);
    }
  }

  /** `IndexOf` finds nothing in a string that does not hold the character. */
  lemma IndexOfAbsent(s: string, c: char)
    requires c !in s
    ensures IndexOf(s, c) == |s|
  {
  }

  /** A string holding `c` is a stretch without `c`, that `c`, and the rest. */
  lemma Cut(s: string, c: char) returns (a: string, b: string)
    requires c in s
    ensures c !in a && s == a + [c] + b
  {
    var i := IndexOf(s, c);
    a, b := s[..i], s[i + 1..];
    assert s == a + [c] + b;
  }

  // ---------------------------------------------------------------------
  // split and splitn

  /** `s.split(sep)`: the pieces between separators, in order; no piece
      holds a separator. */
  function Split(s: string, sep: char): (parts: seq<string>)
    ensures |parts| >= 1
    ensures forall k :: 0 <= k < |parts| ==> sep !in parts[k]
    decreases |s|
  {
    var i := IndexOf(s, sep);
    if i == |s| then
      assert s[..i] == s;
      [s]
    else
      [s[..i]] + Split(s[i + 1..], sep)
  }

  /** A string without the separator is one piece, the whole string. */
  lemma SplitWhole(s: string, sep: char)
    requires sep !in s
    ensures Split(s, sep) == [s]
  {
    IndexOfAbsent(s, sep);
    assert s[..|s|] == s;
  }

  /** The first separator ends the first piece; the rest is split on. */
  lemma SplitCons(a: string, sep: char, b: string)
    requires sep !in a
    ensures Split(a + [sep] + b, sep) == [a] + Split(b, sep)
  {
    var s := a + [sep] + b;
    IndexOfFirst(a, sep, b);
    assert s[..|a|] == a;
    assert s[|a| + 1..] == b;
  }

  /** There is one more piece than there are separators. */
  lemma {:induction false} SplitCount(s: string, sep: char)
    ensures |Split(s, sep)| == multiset(s)[sep] + 1
    decreases |s|
  {
    if sep !in s {
      SplitWhole(s, sep);
      assert multiset(s)[sep] == 0;
    } else {
      var a, b := Cut(s, sep);
      SplitCons(a, sep, b);
      SplitCount(b, sep);
      assert multiset(s) == multiset(a) + multiset([sep] + b);
      assert multiset(a)[sep] == 0;
    }
  }

  /** The pieces glued back together with `sep` between neighbours. */
  function Join(parts: seq<string>, sep: char): (s: string)
    requires |parts| >= 1
    ensures |parts| >= 2 ==> sep in s
    decreases |parts|
  {
    if |parts| == 1 then parts[0]
    else
      var s := parts[0] + [sep] + Join(parts[1..], sep);
      assert s[|parts[0]|] == sep;
      s
  }

  /** Joining a piece in front of others. */
  lemma JoinCons(p: string, rest: seq<string>, sep: char)
    requires |rest| >= 1
    ensures Join([p] + rest, sep) == p + [sep] + Join(rest, sep)
  {
    assert ([p] + rest)[1..] == rest;
  }

  /** Splitting loses nothing: joining the pieces gives back the string. */
  lemma {:induction false} JoinSplit(s: string, sep: char)
    ensures Join(Split(s, sep), sep) == s
    decreases |s|
  {
    if sep !in s {
      SplitWhole(s, sep);
    } else {
      var a, b := Cut(s, sep);
      SplitCons(a, sep, b);
      JoinSplit(b, sep);
      JoinCons(a, Split(b, sep), sep);
    }
  }

  /** Joining separator-free pieces and splitting again gives back the pieces. */
  lemma {:induction false} SplitJoin(parts: seq<string>, sep: char)
    requires |parts| >= 1
    requires forall k :: 0 <= k < |parts| ==> sep !in parts[k]
    ensures Split(Join(parts, sep), sep) == parts
    decreases |parts|
  {
    if |parts| == 1 {
      SplitWhole(parts[0], sep);
    } else {
      var tail := parts[1..];
      assert parts == [parts[0]] + tail;
      JoinCons(parts[0], tail, sep);
      SplitCons(parts[0], sep, Join(tail, sep));
      SplitJoin(tail, sep);
    }
  }

  /** `s.splitn(n, sep)`: at most `n` pieces; when the limit is reached the
      last piece is the whole remainder, separators included. */
  function SplitN(s: string, n: nat, sep: char): (parts: seq<string>)
    ensures |parts| <= n
    ensures n >= 1 ==> |parts| >= 1
    decreases n
  {
    if n == 0 then []
    else if n == 1 then [s]
    else
      var i := IndexOf(s, sep);
      if i == |s| then [s]
      else [s[..i]] + SplitN(s[i + 1..], n - 1, sep)
  }

  /** A string without the separator is one piece, whatever the limit. */
  lemma SplitNWhole(s: string, n: nat, sep: char)
    requires n >= 1 && sep !in s
    ensures SplitN(s, n, sep) == [s]
  {
    IndexOfAbsent(s, sep);
  }

  /** Below the limit, the first separator ends the first piece. */
  lemma SplitNCons(a: string, sep: char, b: string, n: nat)
    requires n >= 2 && sep !in a
    ensures SplitN(a + [sep] + b, n, sep) == [a] + SplitN(b, n - 1, sep)
  {
    var s := a + [sep] + b;
    IndexOfFirst(a, sep, b);
    assert s[..|a|] == a;
    assert s[|a| + 1..] == b;
  }

  /** `splitn(n)` agrees with `split` while there are at most `n` pieces. */
  lemma {:induction false} SplitNFew(s: string, n: nat, sep: char)
    requires 1 <= |Split(s, sep)| <= n
    ensures SplitN(s, n, sep) == Split(s, sep)
    decreases n
  {
    if sep !in s {
      SplitWhole(s, sep);
      SplitNWhole(s, n, sep);
    } else {
      var a, b := Cut(s, sep);
      SplitCons(a, sep, b);
      SplitNCons(a, sep, b, n);
      SplitNFew(b, n - 1, sep);
    }
  }

  /** Beyond `n` pieces, the first `n - 1` pieces of `splitn(n)` are those
      of `split` and its last piece joins all the others, separators kept. */
  lemma {:induction false} SplitNMany(s: string, n: nat, sep: char)
    requires 1 <= n < |Split(s, sep)|
    ensures SplitN(s, n, sep) == Split(s, sep)[..n - 1] + [Join(Split(s, sep)[n - 1..], sep)]
    decreases n
  {
    var all := Split(s, sep);
    if sep !in s {
      SplitWhole(s, sep);
      assert false;
    } else if n == 1 {
      JoinSplit(s, sep);
      assert all[0..] == all;
      assert all[..0] == [];
    } else {
      var a, b := Cut(s, sep);
      SplitCons(a, sep, b);
      SplitNCons(a, sep, b, n);
      SplitNMany(b, n - 1, sep);
      var tail := Split(b, sep);
      assert all[..n - 1] == [a] + tail[..n - 2];
      assert all[n - 1..] == tail[n - 2..];
      var j := Join(tail[n - 2..], sep);
      assert [a] + (tail[..n - 2] + [j]) == ([a] + tail[..n - 2]) + [j];
    }
  }

  // ---------------------------------------------------------------------
  // lines

  /** One line with a single trailing carriage return removed. */
  function StripCR(line: string): (r: string)
    ensures r <= line
    ensures |line| > 0 && line[|line| - 1] == CR ==> r + [CR] == line
    ensures |line| == 0 || line[|line| - 1] != CR ==> r == line
  {
    if |line| > 0 && line[|line| - 1] == CR then line[..|line| - 1] else line
  }

  /** A prefix of a string without a newline holds no newline either. */
  lemma NoNewlineInPrefix(r: string, s: string)
    requires r <= s
    requires NL !in s
    ensures NL !in r
  {
    forall k | 0 <= k < |r|
      ensures r[k] != NL
    {
      assert r[k] == s[k];
    }
  }

  /** `s.lines()`: split at each newline, drop one trailing carriage return
      from every line, and yield no final empty line after a trailing
      newline; the empty string has no lines at all. */
  function Lines(s: string): (ls: seq<string>)
    ensures |ls| == 0 <==> |s| == 0
    ensures forall k :: 0 <= k < |ls| ==> NL !in ls[k]
    decreases |s|
  {
    if |s| == 0 then []
    else
      var i := IndexOf(s, NL);
      if i == |s| then
        assert s[..i] == s;
        NoNewlineInPrefix(StripCR(s), s);
        [StripCR(s)]
      else
        NoNewlineInPrefix(StripCR(s[..i]), s[..i]);
        [StripCR(s[..i])] + Lines(s[i + 1..])
  }

  /** `s.lines().next()`: the first line, if there is one. */
  function FirstLine(s: string): (r: Option<string>)
    ensures r.None? <==> |s| == 0
    ensures r.Some? ==> NL !in r.value
  {
    var ls := Lines(s);
    if |ls| == 0 then None else Some(ls[0])
  }

  /** A newline ends the first line; what follows it is the remaining lines. */
  lemma LinesCons(a: string, b: string)
    requires NL !in a
    ensures Lines(a + [NL] + b) == [StripCR(a)] + Lines(b)
  {
    var s := a + [NL] + b;
    IndexOfFirst(a, NL, b);
    assert s[..|a|] == a;
    assert s[|a| + 1..] == b;
  }

  /** A non-empty string without a newline is one line. */
  lemma LinesSingle(a: string)
    requires |a| > 0 && NL !in a
    ensures Lines(a) == [StripCR(a)]
  {
    IndexOfAbsent(a, NL);
  }

  /** Only the text before the first newline makes up the first line. */
  lemma FirstLineOf(a: string, b: string)
    requires NL !in a
    ensures FirstLine(a + [NL] + b) == Some(StripCR(a))
  {
    LinesCons(a, b);
  }

  /** A newline at the very end adds no empty line. */
  lemma {:induction false} LinesTrailingNewline(s: string)
    requires |s| > 0 && s[|s| - 1] != NL
    ensures Lines(s + [NL]) == Lines(s)
    decreases |s|
  {
    if NL !in s {
      assert s + [NL] == s + [NL] + [];
      LinesCons(s, []);
      LinesSingle(s);
    } else {
      var a, b := Cut(s, NL);
      assert |b| > 0 && b[|b| - 1] == s[|s| - 1];
      assert s + [NL] == a + [NL] + (b + [NL]);
      LinesCons(a, b + [NL]);
      LinesCons(a, b);
      LinesTrailingNewline(b);
    }
  }

  /** Each line followed by a newline, all concatenated. */
  function Terminated(ls: seq<string>): string
  {
    if |ls| == 0 then [] else ls[0] + [NL] + Terminated(ls[1..])
  }

  /** Writing lines out newline-terminated and reading them back with
      `lines()` gives the same lines, provided none holds a newline or ends
      in a carriage return. */
  lemma {:induction false} LinesOfTerminated(ls: seq<string>)
    requires forall k :: 0 <= k < |ls| ==> NL !in ls[k]
    requires forall k :: 0 <= k < |ls| ==> |ls[k]| == 0 || ls[k][|ls[k]| - 1] != CR
    ensures Lines(Terminated(ls)) == ls
    decreases |ls|
  {
    if |ls| > 0 {
      var tail := ls[1..];
      assert forall k :: 0 <= k < |tail| ==> tail[k] == ls[k + 1];
      LinesOfTerminated(tail);
      LinesCons(ls[0], Terminated(tail));
      assert ls == [ls[0]] + tail;
    }
  }

  /** Lines of an input whose first part ends in a newline are the lines of
      the first part followed by those of the second. */
  lemma {:induction false} LinesAppend(a: string, b: string)
    requires |a| == 0 || a[|a| - 1] == NL
    ensures Lines(a + b) == Lines(a) + Lines(b)
    decreases |a|
  {
    if |a| > 0 {
      var line, rest := Cut(a, NL);
      assert a + b == line + [NL] + (rest + b);
      LinesCons(line, rest);
      LinesCons(line, rest + b);
      assert |rest| == 0 || rest[|rest| - 1] == a[|a| - 1];
      LinesAppend(rest, b);
    } else {
      assert a + b == b;
    }
  }
}
