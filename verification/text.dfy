/** Python text primitives several modules share: whitespace, splitting, decimal numbers, joining lines. */
module Text {
  import opened Json

  /** `str.isspace`. */
  predicate Space(c: char) {
    var n := c as int;
    9 <= n <= 13 || 28 <= n <= 32 || n == 0x85 || n == 0xA0 || n == 0x1680 || 0x2000 <= n <= 0x200A
    || n == 0x2028 || n == 0x2029 || n == 0x202F || n == 0x205F || n == 0x3000
  }

  /** The characters for which `str.isspace` holds. */
  const WHITESPACE := {
    0x09, 0x0A, 0x0B, 0x0C, 0x0D, 0x1C, 0x1D, 0x1E, 0x1F, 0x20, 0x85, 0xA0, 0x1680,
    0x2000, 0x2001, 0x2002, 0x2003, 0x2004, 0x2005, 0x2006, 0x2007, 0x2008, 0x2009, 0x200A,
    0x2028, 0x2029, 0x202F, 0x205F, 0x3000}

  lemma SpaceIsWhitespace(c: char)
    ensures Space(c) <==> c as int in WHITESPACE
  {
  }

  predicate Solid(s: string) {
    forall k :: 0 <= k < |s| ==> !Space(s[k])
  }

  predicate Word(s: string) {
    s != "" && Solid(s)
  }

  /** The length of the leading run without whitespace. */
  function WordRun(s: string): (n: nat)
    ensures n <= |s| && Solid(s[..n]) && (n < |s| ==> Space(s[n]))
  {
    if s == "" || Space(s[0]) then 0
    else
      var n := WordRun(s[1..]);
      assert s[..n + 1] == [s[0]] + s[1..][..n];
      n + 1
  }

  /** `str.split()`. */
  function Split(s: string): seq<string>
    decreases |s|
  {
    if s == "" then []
    else if Space(s[0]) then Split(s[1..])
    else [s[..WordRun(s)]] + Split(s[WordRun(s)..])
  }

  /** The longest solid prefix is the word itself when whitespace follows it. */
  lemma {:induction false} WordRunOf(word: string, rest: string)
    requires Solid(word) && (rest == "" || Space(rest[0]))
    ensures WordRun(word + rest) == |word|
  {
    if word == "" {
      assert "" + rest == rest;
    } else {
      assert (word + rest)[1..] == word[1..] + rest;
      WordRunOf(word[1..], rest);
    }
  }

  /** Words each preceded by one space split back into themselves; what follows is split on its own. */
  function Spaced(words: seq<string>): string {
    if words == [] then "" else " " + words[0] + Spaced(words[1..])
  }

  lemma {:induction false} SplitSpaced(words: seq<string>, rest: string)
    requires forall k :: 0 <= k < |words| ==> Word(words[k])
    requires rest == "" || Space(rest[0])
    ensures Split(Spaced(words) + rest) == words + Split(rest)
  {
    if words == [] {
      assert "" + rest == rest && [] + Split(rest) == Split(rest);
    } else {
      var tail := Spaced(words[1..]) + rest;
      SplitSpaced(words[1..], rest);
      SplitWord(words[0], tail);
      RegroupRight(" ", words[0], Spaced(words[1..]), rest);
      Rejoined(words, Split(rest));
    }
  }

  lemma Rejoined<T>(xs: seq<T>, ys: seq<T>)
    requires xs != []
    ensures [xs[0]] + (xs[1..] + ys) == xs + ys
  {
  }

  lemma RegroupRight<T>(a: seq<T>, b: seq<T>, c: seq<T>, d: seq<T>)
    ensures a + b + c + d == a + (b + (c + d))
  {
  }

  lemma SplitWord(word: string, tail: string)
    requires Word(word) && (tail == "" || Space(tail[0]))
    ensures Split(" " + (word + tail)) == [word] + Split(tail)
  {
    var s := word + tail;
    assert (" " + s)[1..] == s;
    WordRunOf(word, tail);
    assert s[..|word|] == word && s[|word|..] == tail;
  }

  // ----- decimal numbers -----

  predicate DigitChar(c: char) { '0' <= c <= '9' }

  function Decimal(n: nat): (s: string)
    ensures s != "" && forall k :: 0 <= k < |s| ==> DigitChar(s[k])
  {
    var last := [(48 + n % 10) as char];
    if n < 10 then last else Decimal(n / 10) + last
  }

  /** Digits with single underscores between them, as Python's `int` reads them. */
  function Digits(s: string): Option<nat> {
    if s == "" || !DigitChar(s[|s| - 1]) then None
    else
      var unit := s[|s| - 1] as int - 48;
      if |s| == 1 then Some(unit)
      else
        var before := if s[|s| - 2] == '_' then Digits(s[..|s| - 2]) else Digits(s[..|s| - 1]);
        if before.None? then None else Some(before.value * 10 + unit)
  }

  /** `int(text)` on a text without surrounding whitespace. */
  function PyInt(s: string): Option<int> {
    if s != "" && (s[0] == '-' || s[0] == '+') then
      var n := Digits(s[1..]);
      var sign: int := if s[0] == '-' then -1 else 1;
      if n.None? then None else Some(sign * n.value)
    else
      Digits(s)
  }

  /** A sign is read as a sign. */
  lemma SignedReads(n: nat)
    ensures PyInt("-" + Decimal(n)) == Some(-(n as int)) && PyInt("+" + Decimal(n)) == Some(n)
  {
    DecimalReads(n);
    assert ("-" + Decimal(n))[1..] == Decimal(n) && ("+" + Decimal(n))[1..] == Decimal(n);
  }

  lemma {:induction false} DecimalReads(n: nat)
    ensures Digits(Decimal(n)) == Some(n)
    ensures PyInt(Decimal(n)) == Some(n)
  {
    if n >= 10 {
      DecimalReads(n / 10);
      assert Decimal(n)[..|Decimal(n)| - 1] == Decimal(n / 10);
    }
  }

  lemma DecimalIsWord(n: nat)
    ensures Word(Decimal(n)) && ')' !in Decimal(n)
  {
  }

  // ----- stripping -----

  function LStrip(s: string): string {
    if s != "" && Space(s[0]) then LStrip(s[1..]) else s
  }

  function RStrip(s: string): string {
    if s != "" && Space(s[|s| - 1]) then RStrip(s[..|s| - 1]) else s
  }

  /** `str.strip()`. */
  function Strip(s: string): string { RStrip(LStrip(s)) }

  predicate Blank(s: string) {
    forall k :: 0 <= k < |s| ==> Space(s[k])
  }

  lemma {:induction false} LStripOfBlank(s: string)
    ensures LStrip(s) == "" <==> Blank(s)
  {
    if s != "" && Space(s[0]) {
      LStripOfBlank(s[1..]);
      assert Blank(s) <==> Blank(s[1..]) by {
        assert forall k :: 1 <= k < |s| ==> s[k] == s[1..][k - 1];
        assert forall k :: 0 <= k < |s| - 1 ==> s[1..][k] == s[k + 1];
      }
    }
  }

  lemma {:induction false} RStripOfBlank(s: string)
    ensures RStrip(s) == "" <==> Blank(s)
  {
    if s != "" && Space(s[|s| - 1]) {
      RStripOfBlank(s[..|s| - 1]);
    }
  }

  lemma {:induction false} LStripStarts(s: string)
    ensures LStrip(s) != "" ==> !Space(LStrip(s)[0])
  {
    if s != "" && Space(s[0]) {
      LStripStarts(s[1..]);
    }
  }

  /** Stripping leaves nothing of blank text and of no other. */
  lemma StripOfBlank(s: string)
    ensures Strip(s) == "" <==> Blank(s)
  {
    LStripOfBlank(s);
    RStripOfBlank(LStrip(s));
    LStripStarts(s);
  }
}
