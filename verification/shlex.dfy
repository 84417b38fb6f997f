/** `shlex` as this program uses it: quoting one word, and the POSIX lexer that takes one word back
    (whitespace splitting, no comments). Quoting follows section 2.2 of the POSIX.1-2017 Shell Command Language. */
module Shlex {
  import opened Json

  // ----- quoting -----

  /** The characters `shlex.quote` leaves bare. */
  predicate Safe(c: char) {
    'a' <= c <= 'z' || 'A' <= c <= 'Z' || '0' <= c <= '9' || c in "_@%+=:,./-"
  }

  predicate AllSafe(s: string) {
    forall k :: 0 <= k < |s| ==> Safe(s[k])
  }

  /** Inside single quotes only a single quote needs care: it is closed, double-quoted and reopened. */
  function Body(s: string): string {
    if s == "" then "" else (if s[0] == '\'' then "'\"'\"'" else [s[0]]) + Body(s[1..])
  }

  function Quote(s: string): string {
    if s == "" then "''"
    else if AllSafe(s) then s
    else "'" + Body(s) + "'"
  }

  // ----- the lexer -----

  predicate Blank(c: char) { c in " \t\r\n" }

  /** `shlex.state`: between words, in a word, inside a quote, or after a backslash that will return to a
      word or to a double quote. */
  datatype Mode = Between | InWord | InQuote(quote: char) | Escaping(inQuotes: bool)

  /** A token and how many characters were read, or the `ValueError` of an open quote or escape. */
  datatype Lexed = Token(text: Option<string>, used: nat) | Unclosed

  datatype Move = Goes(mode: Mode, token: string, quoted: bool) | Emits

  /** What one character does. */
  function Advance(mode: Mode, token: string, quoted: bool, c: char): Move {
    match mode
    case Between =>
      if Blank(c) then if token != "" || quoted then Emits else Goes(Between, token, quoted)
      else if c == '\\' then Goes(Escaping(false), token, quoted)
      else if c == '\'' || c == '"' then Goes(InQuote(c), token, quoted)
      else Goes(InWord, [c], quoted)
    case InWord =>
      if Blank(c) then if token != "" || quoted then Emits else Goes(Between, token, quoted)
      else if c == '\'' || c == '"' then Goes(InQuote(c), token, quoted)
      else if c == '\\' then Goes(Escaping(false), token, quoted)
      else Goes(InWord, token + [c], quoted)
    case InQuote(q) =>
      if c == q then Goes(InWord, token, true)
      else if c == '\\' && q == '"' then Goes(Escaping(true), token, true)
      else Goes(InQuote(q), token + [c], true)
    case Escaping(inQuotes) =>
      if inQuotes then Goes(InQuote('"'), if c != '\\' && c != '"' then token + ['\\', c] else token + [c], quoted)
      else Goes(InWord, token + [c], quoted)
  }

  function AtEnd(mode: Mode, token: string, quoted: bool, used: nat): Lexed {
    if mode.InQuote? || mode.Escaping? then Unclosed
    else Token(if token == "" && !quoted then None else Some(token), used)
  }

  /** `read_token` from a state, on the characters still unread. */
  function Lex(s: string, mode: Mode, token: string, quoted: bool, used: nat): Lexed
    decreases |s|
  {
    if s == "" then AtEnd(mode, token, quoted, used)
    else
      var move := Advance(mode, token, quoted, s[0]);
      if move.Emits? then Token(Some(token), used + 1)
      else Lex(s[1..], move.mode, move.token, move.quoted, used + 1)
  }

  function FirstToken(s: string): Lexed { Lex(s, Between, "", false, 0) }

  /** The lexer object, over its text and state. */
  class Lexer {
    const text: string
    var pos: nat
    var mode: Mode
    var token: string

    constructor (text: string)
      ensures this.text == text && pos == 0 && mode == Between && token == ""
    {
      this.text, pos, mode, token := text, 0, Between, "";
    }

    /** The first `get_token`. */
    method GetToken() returns (r: Lexed)
      requires pos == 0 && mode == Between && token == ""
      modifies this
      ensures r == FirstToken(text)
      ensures r.Token? ==> pos == r.used && pos <= |text|
    {
      var quoted := false;
      while pos < |text|
        invariant pos <= |text|
        invariant Lex(text[pos..], mode, token, quoted, pos) == FirstToken(text)
      {
        var move := Advance(mode, token, quoted, text[pos]);
        assert text[pos..][0] == text[pos] && text[pos..][1..] == text[pos + 1..];
        pos := pos + 1;
        if move.Emits? {
          r := Token(Some(token), pos);
          mode, token := Between, "";
          return;
        }
        mode, token, quoted := move.mode, move.token, move.quoted;
      }
      assert text[pos..] == "";
      r := AtEnd(mode, token, quoted, pos);
    }
  }

  lemma {:induction false} TokenStaysInText(s: string, mode: Mode, token: string, quoted: bool, used: nat)
    ensures var r := Lex(s, mode, token, quoted, used); r.Token? ==> used <= r.used <= used + |s|
    decreases |s|
  {
    if s != "" {
      var move := Advance(mode, token, quoted, s[0]);
      if move.Goes? {
        TokenStaysInText(s[1..], move.mode, move.token, move.quoted, used + 1);
      }
    }
  }

  // ----- quoting, then lexing -----

  lemma LexStep(c: char, rest: string, mode: Mode, token: string, quoted: bool, used: nat)
    ensures Lex([c] + rest, mode, token, quoted, used) ==
            var move := Advance(mode, token, quoted, c);
            if move.Emits? then Token(Some(token), used + 1)
            else Lex(rest, move.mode, move.token, move.quoted, used + 1)
  {
    assert ([c] + rest)[1..] == rest;
  }

  /** Reading a quoted body gives back its characters and stays inside the quote. */
  lemma {:induction false} LexBody(s: string, rest: string, token: string, quoted: bool, used: nat)
    ensures s != "" ==> Lex(Body(s) + rest, InQuote('\''), token, quoted, used) ==
                        Lex(rest, InQuote('\''), token + s, true, used + |Body(s)|)
    ensures s == "" ==> Body(s) + rest == rest
    decreases |s|
  {
    if s != "" {
      var tail := Body(s[1..]) + rest;
      var after := token + [s[0]];
      if s[0] == '\'' {
        assert Body(s) + rest == ['\''] + (['"'] + (['\''] + (['"'] + (['\''] + tail))));
        LexStep('\'', ['"'] + (['\''] + (['"'] + (['\''] + tail))), InQuote('\''), token, quoted, used);
        LexStep('"', ['\''] + (['"'] + (['\''] + tail)), InWord, token, true, used + 1);
        LexStep('\'', ['"'] + (['\''] + tail), InQuote('"'), token, true, used + 2);
        LexStep('"', ['\''] + tail, InQuote('"'), after, true, used + 3);
        LexStep('\'', tail, InWord, after, true, used + 4);
      } else {
        assert Body(s) + rest == [s[0]] + tail;
        LexStep(s[0], tail, InQuote('\''), token, quoted, used);
      }
      LexBody(s[1..], rest, after, true, used + |Body(s)| - |Body(s[1..])|);
      assert after + s[1..] == token + s;
      if |s| == 1 {
        assert Body(s[1..]) == "" && tail == rest && after == token + s;
      }
    }
  }

  lemma {:induction false} LexSafe(s: string, rest: string, token: string, used: nat)
    requires AllSafe(s)
    ensures Lex(s + rest, InWord, token, false, used) == Lex(rest, InWord, token + s, false, used + |s|)
    decreases |s|
  {
    if s == "" {
      assert s + rest == rest && token + s == token;
    } else {
      assert s + rest == [s[0]] + (s[1..] + rest);
      assert Safe(s[0]) && !Blank(s[0]) && s[0] != '\'' && s[0] != '"' && s[0] != '\\';
      LexStep(s[0], s[1..] + rest, InWord, token, false, used);
      LexSafe(s[1..], rest, token + [s[0]], used + 1);
      Regroup(token, [s[0]], s[1..]);
      assert [s[0]] + s[1..] == s;
    }
  }

  /** Whatever the word holds, quoting it and taking the first token gives it back, and the lexer stops just
      after the blank that ends it. */
  lemma QuoteLexes(s: string, blank: char, rest: string)
    requires Blank(blank)
    ensures FirstToken(Quote(s) + [blank] + rest) == Token(Some(s), |Quote(s)| + 1)
  {
    if s != "" && AllSafe(s) {
      BareLexes(s, blank, rest);
    } else {
      QuotedLexes(s, blank, rest);
      assert Quote(s) == "'" + Body(s) + "'";
    }
  }

  lemma BareLexes(s: string, blank: char, rest: string)
    requires Blank(blank) && s != "" && AllSafe(s)
    ensures FirstToken(s + [blank] + rest) == Token(Some(s), |s| + 1)
  {
    var after := [blank] + rest;
    assert s + [blank] + rest == [s[0]] + (s[1..] + after);
    assert Safe(s[0]) && !Blank(s[0]) && s[0] != '\'' && s[0] != '"' && s[0] != '\\';
    LexStep(s[0], s[1..] + after, Between, "", false, 0);
    LexSafe(s[1..], after, [s[0]], 1);
    assert [s[0]] + s[1..] == s;
    LexStep(blank, rest, InWord, s, false, |s|);
  }

  lemma QuotedLexes(s: string, blank: char, rest: string)
    requires Blank(blank)
    ensures FirstToken("'" + Body(s) + "'" + [blank] + rest) == Token(Some(s), |Body(s)| + 3)
  {
    var after := [blank] + rest;
    var close := ['\''] + after;
    assert "'" + Body(s) + "'" + [blank] + rest == ['\''] + (Body(s) + close);
    LexStep('\'', Body(s) + close, Between, "", false, 0);
    LexBody(s, close, "", false, 1);
    assert "" + s == s;
    var quoted := s != "";
    LexStep('\'', after, InQuote('\''), s, quoted, 1 + |Body(s)|);
    LexStep(blank, rest, InWord, s, true, 2 + |Body(s)|);
  }

  /** A quoted word cut short inside its quote is not a word yet. */
  lemma CutQuoteIsUnclosed(s: string)
    ensures FirstToken("'" + Body(s)) == Unclosed
  {
    assert "'" + Body(s) == ['\''] + (Body(s) + "");
    LexStep('\'', Body(s) + "", Between, "", false, 0);
    LexBody(s, "", "", false, 1);
  }

  /** A character of the word that is no quote stands in the body where the body of what precedes it ends. */
  lemma {:induction false} BodyCut(s: string, q: nat)
    requires q < |Body(s)| && Body(s)[q] == '\n'
    ensures exists j :: 0 <= j < |s| && s[j] == '\n' && Body(s)[..q] == Body(s[..j])
    decreases |s|
  {
    var head := if s[0] == '\'' then "'\"'\"'" else [s[0]];
    assert Body(s) == head + Body(s[1..]);
    if q < |head| {
      assert q == 0 && s[0] == '\n';
      assert s[..0] == "" && Body(s)[..0] == "";
    } else {
      BodyCut(s[1..], q - |head|);
      var j :| 0 <= j < |s[1..]| && s[1..][j] == '\n' && Body(s[1..])[..q - |head|] == Body(s[1..][..j]);
      assert s[..j + 1][1..] == s[1..][..j] && s[..j + 1][0] == s[0];
      assert Body(s)[..q] == head + Body(s[1..])[..q - |head|];
      assert s[j + 1] == '\n';
    }
  }

  // ----- any word of the shell -----

  /** Inside double quotes: a character, one a backslash has to escape, or a backslash kept with what follows it. */
  datatype Inner = Lit(c: char) | Esc(c: char) | Kept(c: char)

  /** A piece of a word: a bare character, one behind a backslash, or a quoted run. */
  datatype Piece = Plain(c: char) | Escaped(c: char) | Single(s: string) | Double(inner: seq<Inner>)

  predicate GoodInner(i: Inner) {
    if i.Esc? then i.c == '"' || i.c == '\\' else i.c != '"' && i.c != '\\'
  }

  predicate GoodPiece(p: Piece) {
    match p
    case Plain(c) => !Blank(c) && c != '\'' && c != '"' && c != '\\'
    case Escaped(_) => true
    case Single(s) => '\'' !in s
    case Double(inner) => forall k :: 0 <= k < |inner| ==> GoodInner(inner[k])
  }

  function SpellInner(inner: seq<Inner>): string {
    if inner == [] then ""
    else (if inner[0].Lit? then [inner[0].c] else ['\\', inner[0].c]) + SpellInner(inner[1..])
  }

  function InnerText(inner: seq<Inner>): string {
    if inner == [] then ""
    else (if inner[0].Kept? then ['\\', inner[0].c] else [inner[0].c]) + InnerText(inner[1..])
  }

  function Spell(p: Piece): string {
    match p
    case Plain(c) => [c]
    case Escaped(c) => ['\\', c]
    case Single(s) => ['\''] + (s + ['\''])
    case Double(inner) => ['"'] + (SpellInner(inner) + ['"'])
  }

  /** What a piece stands for. */
  function PieceText(p: Piece): string {
    match p
    case Plain(c) => [c]
    case Escaped(c) => [c]
    case Single(s) => s
    case Double(inner) => InnerText(inner)
  }

  predicate Quoted(p: Piece) { p.Single? || p.Double? }

  lemma {:induction false} LexSingle(s: string, rest: string, token: string, used: nat)
    requires '\'' !in s
    ensures Lex(s + (['\''] + rest), InQuote('\''), token, true, used) == Lex(rest, InWord, token + s, true, used + |s| + 1)
    decreases |s|
  {
    if s == "" {
      assert s + (['\''] + rest) == ['\''] + rest && token + s == token;
      LexStep('\'', rest, InQuote('\''), token, true, used);
    } else {
      assert s + (['\''] + rest) == [s[0]] + (s[1..] + (['\''] + rest));
      LexStep(s[0], s[1..] + (['\''] + rest), InQuote('\''), token, true, used);
      LexSingle(s[1..], rest, token + [s[0]], used + 1);
      assert token + [s[0]] + s[1..] == token + s;
    }
  }

  lemma {:induction false} LexDouble(inner: seq<Inner>, rest: string, token: string, used: nat)
    requires forall k :: 0 <= k < |inner| ==> GoodInner(inner[k])
    ensures Lex(SpellInner(inner) + (['"'] + rest), InQuote('"'), token, true, used) ==
            Lex(rest, InWord, token + InnerText(inner), true, used + |SpellInner(inner)| + 1)
    decreases |inner|
  {
    if inner == [] {
      assert "" + (['"'] + rest) == ['"'] + rest && token + "" == token;
      LexStep('"', rest, InQuote('"'), token, true, used);
    } else {
      var i, more := inner[0], SpellInner(inner[1..]);
      var text := if i.Kept? then ['\\', i.c] else [i.c];
      var spelt := if i.Lit? then [i.c] else ['\\', i.c];
      Json.Regroup(spelt, more, ['"'] + rest);
      LexInner(i, more + (['"'] + rest), token, used);
      LexDouble(inner[1..], rest, token + text, used + |spelt|);
      Json.Regroup(token, text, InnerText(inner[1..]));
    }
  }

  /** One spelled character inside double quotes. */
  lemma LexInner(i: Inner, more: string, token: string, used: nat)
    requires GoodInner(i)
    ensures var spelt, text := if i.Lit? then [i.c] else ['\\', i.c], if i.Kept? then ['\\', i.c] else [i.c];
            Lex(spelt + more, InQuote('"'), token, true, used) == Lex(more, InQuote('"'), token + text, true, used + |spelt|)
  {
    if i.Lit? {
      LexStep(i.c, more, InQuote('"'), token, true, used);
    } else {
      assert ['\\', i.c] + more == ['\\'] + ([i.c] + more);
      LexStep('\\', [i.c] + more, InQuote('"'), token, true, used);
      LexStep(i.c, more, Escaping(true), token, true, used + 1);
    }
  }

  /** The modes a piece can start in: inside a word, or before one with nothing read yet. */
  predicate Ready(mode: Mode, token: string) {
    mode == InWord || (mode == Between && token == "")
  }

  lemma LexPlain(c: char, rest: string, mode: Mode, token: string, quoted: bool, used: nat)
    requires GoodPiece(Plain(c)) && Ready(mode, token)
    ensures Lex([c] + rest, mode, token, quoted, used) == Lex(rest, InWord, token + [c], quoted, used + 1)
  {
    LexStep(c, rest, mode, token, quoted, used);
    assert "" + [c] == [c];
  }

  lemma LexEscaped(c: char, rest: string, mode: Mode, token: string, quoted: bool, used: nat)
    requires Ready(mode, token)
    ensures Lex(['\\'] + ([c] + rest), mode, token, quoted, used) == Lex(rest, InWord, token + [c], quoted, used + 2)
  {
    LexStep('\\', [c] + rest, mode, token, quoted, used);
    LexStep(c, rest, Escaping(false), token, quoted, used + 1);
  }

  lemma LexOpening(quote: char, s: string, mode: Mode, token: string, quoted: bool, used: nat)
    requires (quote == '\'' || quote == '"') && Ready(mode, token) && s != ""
    ensures Lex([quote] + s, mode, token, quoted, used) == Lex(s, InQuote(quote), token, true, used + 1)
  {
    LexStep(quote, s, mode, token, quoted, used);
    OpenedAlike(s, quote, token, quoted, used + 1);
  }

  /** One piece read from inside a word, or from the start of one. */
  lemma LexPiece(p: Piece, rest: string, mode: Mode, token: string, quoted: bool, used: nat)
    requires GoodPiece(p) && Ready(mode, token)
    ensures Lex(Spell(p) + rest, mode, token, quoted, used) ==
            Lex(rest, InWord, token + PieceText(p), quoted || Quoted(p), used + |Spell(p)|)
  {
    match p
    case Plain(c) => LexPlain(c, rest, mode, token, quoted, used);
    case Escaped(c) =>
      SpelledEscape(c, rest);
      LexEscaped(c, rest, mode, token, quoted, used);
    case Single(s) =>
      SpelledQuote('\'', s, rest);
      LexOpening('\'', s + (['\''] + rest), mode, token, quoted, used);
      LexSingle(s, rest, token, used + 1);
    case Double(inner) =>
      SpelledQuote('"', SpellInner(inner), rest);
      LexOpening('"', SpellInner(inner) + (['"'] + rest), mode, token, quoted, used);
      LexDouble(inner, rest, token, used + 1);
  }

  lemma SpelledEscape(c: char, rest: string)
    ensures ['\\', c] + rest == ['\\'] + ([c] + rest)
  {
  }

  lemma SpelledQuote(quote: char, s: string, rest: string)
    ensures [quote] + (s + [quote]) + rest == [quote] + (s + ([quote] + rest))
    ensures |[quote] + (s + [quote])| == |s| + 2
  {
  }

  /** The first character inside a quote marks the word as quoted. */
  lemma OpenedAlike(s: string, quote: char, token: string, quoted: bool, used: nat)
    requires s != ""
    ensures Lex(s, InQuote(quote), token, quoted, used) == Lex(s, InQuote(quote), token, true, used)
  {
  }

  function SpellWord(pieces: seq<Piece>): string {
    if pieces == [] then "" else Spell(pieces[0]) + SpellWord(pieces[1..])
  }

  function WordText(pieces: seq<Piece>): string {
    if pieces == [] then "" else PieceText(pieces[0]) + WordText(pieces[1..])
  }

  predicate AnyQuoted(pieces: seq<Piece>) {
    exists k :: 0 <= k < |pieces| && Quoted(pieces[k])
  }

  lemma {:induction false} LexWord(pieces: seq<Piece>, rest: string, token: string, quoted: bool, used: nat)
    requires forall k :: 0 <= k < |pieces| ==> GoodPiece(pieces[k])
    ensures Lex(SpellWord(pieces) + rest, InWord, token, quoted, used) ==
            Lex(rest, InWord, token + WordText(pieces), quoted || AnyQuoted(pieces), used + |SpellWord(pieces)|)
    decreases |pieces|
  {
    if pieces == [] {
      assert "" + rest == rest && token + "" == token;
    } else {
      var p, more := pieces[0], pieces[1..];
      Regroup(Spell(p), SpellWord(more), rest);
      LexPiece(p, SpellWord(more) + rest, InWord, token, quoted, used);
      LexWord(more, rest, token + PieceText(p), quoted || Quoted(p), used + |Spell(p)|);
      Regroup(token, PieceText(p), WordText(more));
      QuotedSplits(pieces);
    }
  }

  lemma QuotedSplits(pieces: seq<Piece>)
    requires pieces != []
    ensures AnyQuoted(pieces) <==> Quoted(pieces[0]) || AnyQuoted(pieces[1..])
  {
    assert forall k :: 0 <= k < |pieces[1..]| ==> pieces[1..][k] == pieces[k + 1];
    assert forall k :: 1 <= k < |pieces| ==> pieces[k] == pieces[1..][k - 1];
  }

  lemma {:induction false} TextOrQuoted(pieces: seq<Piece>)
    requires pieces != []
    ensures WordText(pieces) != "" || AnyQuoted(pieces)
  {
    QuotedSplits(pieces);
  }

  lemma {:induction false} LexBlanks(blanks: string, rest: string, used: nat)
    requires forall k :: 0 <= k < |blanks| ==> Blank(blanks[k])
    ensures Lex(blanks + rest, Between, "", false, used) == Lex(rest, Between, "", false, used + |blanks|)
    decreases |blanks|
  {
    if blanks == "" {
      assert blanks + rest == rest;
    } else {
      assert blanks + rest == [blanks[0]] + (blanks[1..] + rest);
      LexStep(blanks[0], blanks[1..] + rest, Between, "", false, used);
      LexBlanks(blanks[1..], rest, used + 1);
    }
  }

  /** Any word of the shell, however its pieces are quoted or escaped and whatever blanks come first, is the first token
      and stands for the text of its pieces; it ends just past the blank behind it, or with the text. */
  lemma AnyWordLexes(blanks: string, pieces: seq<Piece>, blank: char, rest: string)
    requires pieces != [] && forall k :: 0 <= k < |pieces| ==> GoodPiece(pieces[k])
    requires Blank(blank) && forall k :: 0 <= k < |blanks| ==> Blank(blanks[k])
    ensures var n := |blanks| + |SpellWord(pieces)|;
            && FirstToken(blanks + (SpellWord(pieces) + ([blank] + rest))) == Token(Some(WordText(pieces)), n + 1)
            && FirstToken(blanks + (SpellWord(pieces) + "")) == Token(Some(WordText(pieces)), n)
  {
    TextOrQuoted(pieces);
    WordFrom(blanks, pieces, [blank] + rest);
    LexStep(blank, rest, InWord, WordText(pieces), AnyQuoted(pieces), |blanks| + |SpellWord(pieces)|);
    WordFrom(blanks, pieces, "");
  }

  lemma WordFrom(blanks: string, pieces: seq<Piece>, rest: string)
    requires pieces != [] && forall k :: 0 <= k < |pieces| ==> GoodPiece(pieces[k])
    requires forall k :: 0 <= k < |blanks| ==> Blank(blanks[k])
    ensures FirstToken(blanks + (SpellWord(pieces) + rest)) ==
            Lex(rest, InWord, WordText(pieces), AnyQuoted(pieces), |blanks| + |SpellWord(pieces)|)
  {
    LexBlanks(blanks, SpellWord(pieces) + rest, 0);
    WordBegins(pieces, rest, |blanks|);
  }

  lemma WordBegins(pieces: seq<Piece>, rest: string, used: nat)
    requires pieces != [] && forall k :: 0 <= k < |pieces| ==> GoodPiece(pieces[k])
    ensures Lex(SpellWord(pieces) + rest, Between, "", false, used) ==
            Lex(rest, InWord, WordText(pieces), AnyQuoted(pieces), used + |SpellWord(pieces)|)
  {
    var p, more := pieces[0], pieces[1..];
    Regroup(Spell(p), SpellWord(more), rest);
    LexPiece(p, SpellWord(more) + rest, Between, "", false, used);
    assert "" + PieceText(p) == PieceText(p);
    LexWord(more, rest, PieceText(p), Quoted(p), used + |Spell(p)|);
    QuotedSplits(pieces);
  }

  /** Blanks alone hold no token. */
  lemma BlanksHoldNothing(blanks: string)
    requires forall k :: 0 <= k < |blanks| ==> Blank(blanks[k])
    ensures FirstToken(blanks) == Token(None, |blanks|)
  {
    LexBlanks(blanks, "", 0);
    assert blanks + "" == blanks;
  }

  /** Which words are left bare: those of letters, digits and `_@%+=:,./-`; any other is set in single quotes. */
  lemma BareExactlyWhenSafe(s: string)
    ensures Quote(s) == s <==> s != "" && forall k :: 0 <= k < |s| ==> ShellSafe(s[k])
    ensures Quote(s) != s ==> Quote(s)[0] == '\'' && Quote(s)[|Quote(s)| - 1] == '\''
  {
    if s != "" && !AllSafe(s) {
      BodyIsNoShorter(s);
    }
  }

  predicate ShellSafe(c: char) {
    var n := c as int;
    97 <= n <= 122 || 65 <= n <= 90 || 48 <= n <= 58 || 43 <= n <= 47 || n == 95 || n == 64 || n == 37 || n == 61
  }

  lemma {:induction false} BodyIsNoShorter(s: string)
    ensures |Body(s)| >= |s|
  {
    if s != "" {
      BodyIsNoShorter(s[1..]);
    }
  }
}
