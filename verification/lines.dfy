/** Lines of a text, and searching in it: `split("\n")`, `"\n".join`, `rfind`, `replace`. */
module Lines {
  import opened Json

  function Join(lines: seq<string>): (s: string)
    ensures lines == [] ==> s == ""
  {
    if lines == [] then "" else if |lines| == 1 then lines[0] else lines[0] + "\n" + Join(lines[1..])
  }

  /** How far the first line reaches. */
  function LineEnd(s: string): (n: nat)
    ensures n <= |s| && '\n' !in s[..n] && (n < |s| ==> s[n] == '\n')
  {
    if s == "" || s[0] == '\n' then 0
    else
      var n := LineEnd(s[1..]);
      assert s[..n + 1] == [s[0]] + s[1..][..n];
      n + 1
  }

  /** `text.split("\n")`: never empty. */
  function SplitLines(s: string): (lines: seq<string>)
    ensures lines != []
    decreases |s|
  {
    var n := LineEnd(s);
    if n == |s| then [s] else [s[..n]] + SplitLines(s[n + 1..])
  }

  lemma {:induction false} LineEndOf(line: string, rest: string)
    requires '\n' !in line && (rest == "" || rest[0] == '\n')
    ensures LineEnd(line + rest) == |line|
    decreases |line|
  {
    if line == "" {
      assert line + rest == rest;
    } else {
      assert (line + rest)[1..] == line[1..] + rest;
      LineEndOf(line[1..], rest);
    }
  }

  lemma {:induction false} SplitJoined(s: string)
    ensures Join(SplitLines(s)) == s
    decreases |s|
  {
    var n := LineEnd(s);
    if n == |s| {
      assert SplitLines(s) == [s];
    } else {
      SplitJoined(s[n + 1..]);
      JoinMore(s[..n], SplitLines(s[n + 1..]));
      FirstLine(s);
    }
  }

  /** Peeling the first line. */
  lemma SplitStep(line: string, rest: string)
    requires '\n' !in line
    ensures SplitLines(line + "\n" + rest) == [line] + SplitLines(rest)
  {
    var s := line + ("\n" + rest);
    LineEndOf(line, "\n" + rest);
    assert s == line + "\n" + rest && s[..|line|] == line && s[|line| + 1..] == rest;
  }

  lemma FirstLine(s: string)
    requires LineEnd(s) < |s|
    ensures s == s[..LineEnd(s)] + "\n" + s[LineEnd(s) + 1..]
  {
    CutAt(s, LineEnd(s));
  }

  lemma CutAt(s: string, n: nat)
    requires n < |s| && s[n] == '\n'
    ensures s == s[..n] + "\n" + s[n + 1..]
  {
  }

  lemma {:induction false} SplitAcross(a: string, b: string)
    ensures SplitLines(a + "\n" + b) == SplitLines(a) + SplitLines(b)
    decreases |a|
  {
    var n := LineEnd(a);
    if n == |a| {
      assert a[..n] == a;
      SplitStep(a, b);
    } else {
      var line, rest := a[..n], a[n + 1..];
      FirstLine(a);
      RestAcross(line, rest, b);
      SplitStep(line, rest + "\n" + b);
      SplitStep(line, rest);
      SplitAcross(rest, b);
      Regroup([line], SplitLines(rest), SplitLines(b));
    }
  }

  lemma RestAcross(line: string, rest: string, b: string)
    ensures line + "\n" + rest + "\n" + b == line + "\n" + (rest + "\n" + b)
  {
  }

  lemma JoinMore(line: string, lines: seq<string>)
    requires lines != []
    ensures Join([line] + lines) == line + "\n" + Join(lines)
  {
    assert ([line] + lines)[1..] == lines;
  }

  /** Lines joined in two parts. */
  lemma {:induction false} JoinInTwo(lines: seq<string>, n: nat)
    requires 1 <= n < |lines|
    ensures Join(lines) == Join(lines[..n]) + "\n" + Join(lines[n..])
  {
    var rest := lines[1..];
    if n == 1 {
      assert lines[..1] == [lines[0]];
    } else {
      JoinInTwo(rest, n - 1);
      assert lines[..n] == [lines[0]] + rest[..n - 1] && lines[n..] == rest[n - 1..];
      JoinMore(lines[0], rest[..n - 1]);
      Regroup(lines[0] + "\n", Join(rest[..n - 1]) + "\n", Join(lines[n..]));
      Regroup(lines[0] + "\n", Join(rest[..n - 1]), "\n");
    }
  }

  /** Joining the first lines of a split text gives the text up to one of its newlines. */
  lemma CutAtNewline(s: string, n: nat)
    requires 1 <= n < |SplitLines(s)|
    ensures exists p :: 0 <= p < |s| && s[p] == '\n' && Join(SplitLines(s)[..n]) == s[..p]
  {
    SplitJoined(s);
    JoinInTwo(SplitLines(s), n);
    CutBetween(s, Join(SplitLines(s)[..n]), Join(SplitLines(s)[n..]));
  }

  lemma CutBetween(s: string, first: string, rest: string)
    requires s == first + "\n" + rest
    ensures |first| < |s| && s[|first|] == '\n' && first == s[..|first|]
  {
  }

  predicate Occurs(s: string, part: string, k: int) {
    0 <= k <= |s| - |part| && s[k..k + |part|] == part
  }

  /** `str.rfind`. */
  function RFind(s: string, part: string): (k: int)
    ensures k == -1 || Occurs(s, part, k)
    ensures forall j :: Occurs(s, part, j) ==> j <= k
  {
    RFindFrom(s, part, |s| - |part|)
  }

  function RFindFrom(s: string, part: string, from: int): (k: int)
    requires from <= |s| - |part|
    ensures k == -1 || Occurs(s, part, k)
    ensures forall j :: j <= from && Occurs(s, part, j) ==> j <= k
    decreases from + 1
  {
    if from < 0 then -1 else if Occurs(s, part, from) then from else RFindFrom(s, part, from - 1)
  }

  /** `str.replace` of a nonempty part: left to right, without overlap. */
  function Replace(s: string, part: string, with: string): string
    requires part != ""
    decreases |s|
  {
    if s == "" then ""
    else if Occurs(s, part, 0) then with + Replace(s[|part|..], part, with)
    else [s[0]] + Replace(s[1..], part, with)
  }

  /** A part without a newline is replaced line by line. */
  lemma {:induction false} ReplaceAcross(a: string, b: string, part: string, with: string)
    requires part != "" && '\n' !in part
    ensures Replace(a + "\n" + b, part, with) == Replace(a, part, with) + "\n" + Replace(b, part, with)
    decreases |a|
  {
    var s := a + "\n" + b;
    OccursAcross(a, b, part);
    if a == "" {
      assert s == "\n" + b && s[1..] == b;
    } else if Occurs(a, part, 0) {
      assert s[|part|..] == a[|part|..] + "\n" + b;
      ReplaceAcross(a[|part|..], b, part, with);
      RegroupFour(with, Replace(a[|part|..], part, with), "\n", Replace(b, part, with));
    } else {
      assert s[1..] == a[1..] + "\n" + b;
      ReplaceAcross(a[1..], b, part, with);
      RegroupFour([a[0]], Replace(a[1..], part, with), "\n", Replace(b, part, with));
    }
  }

  lemma OccursAcross(a: string, b: string, part: string)
    requires part != "" && '\n' !in part
    ensures Occurs(a + "\n" + b, part, 0) <==> Occurs(a, part, 0)
  {
    var s := a + "\n" + b;
    if |part| > |a| && Occurs(s, part, 0) {
      PartCrosses(a, b, part);
    }
    if |part| <= |a| {
      assert s[..|part|] == a[..|part|];
    }
  }

  lemma PartCrosses(a: string, b: string, part: string)
    requires |part| > |a| && Occurs(a + "\n" + b, part, 0)
    ensures '\n' in part
  {
    var s := a + "\n" + b;
    assert part[|a|] == s[..|part|][|a|] == '\n';
  }

  lemma ReplaceWhole(part: string, with: string)
    requires part != ""
    ensures Replace(part, part, with) == with
  {
    assert part[..|part|] == part && part[|part|..] == "";
  }

  lemma OccursLater(s: string, part: string)
    requires s != ""
    ensures forall k :: Occurs(s[1..], part, k) ==> Occurs(s, part, k + 1)
  {
    forall k | Occurs(s[1..], part, k)
      ensures Occurs(s, part, k + 1)
    {
      assert s[1..][k..k + |part|] == s[k + 1..k + 1 + |part|];
    }
  }

  lemma {:induction false} ReplaceNothing(s: string, part: string, with: string)
    requires part != "" && forall k :: !Occurs(s, part, k)
    ensures Replace(s, part, with) == s
    decreases |s|
  {
    if s != "" {
      OccursLater(s, part);
      assert forall k :: !Occurs(s[1..], part, k);
      ReplaceNothing(s[1..], part, with);
    }
  }
}
