/** The multi-target hint: rows printed for a shell, parsed back, and respelled as commands. */
module TargetHint {
  import opened Json
  import opened Text
  import opened Shlex
  import opened Lines

  // ----- escaping a file name onto one line -----

  predicate Control(c: char) {
    var n := c as int;
    n < 32 || 127 <= n < 160
  }

  predicate HasControl(s: string) {
    exists k :: 0 <= k < |s| && Control(s[k])
  }

  function HexDigit(n: int): char
    requires 0 <= n < 16
  {
    "0123456789abcdef"[n]
  }

  function EscapeChar(c: char): string {
    if Control(c) then ['\\', 'x', HexDigit(c as int / 16), HexDigit(c as int % 16)]
    else if c == '\\' then "\\\\"
    else [c]
  }

  function EscapeControls(s: string): string {
    if s == "" then "" else EscapeChar(s[0]) + EscapeControls(s[1..])
  }

  function HexValue(c: char): Option<int> {
    if '0' <= c <= '9' then Some(c as int - 48)
    else if 'a' <= c <= 'f' then Some(c as int - 87)
    else None
  }

  /** Reads an escaped name back, so that no two names can print alike. */
  function Unescape(s: string): Option<string>
    decreases |s|
  {
    if s == "" then Some("")
    else if s[0] != '\\' then Prepend(s[0], Unescape(s[1..]))
    else if |s| >= 2 && s[1] == '\\' then Prepend('\\', Unescape(s[2..]))
    else if |s| >= 4 && s[1] == 'x' && HexValue(s[2]).Some? && HexValue(s[3]).Some? then
      Prepend((HexValue(s[2]).value * 16 + HexValue(s[3]).value) as char, Unescape(s[4..]))
    else None
  }

  function Prepend(c: char, rest: Option<string>): Option<string> {
    if rest.None? then None else Some([c] + rest.value)
  }

  lemma UnescapeOne(c: char, tail: string)
    ensures Unescape(EscapeChar(c) + tail) == Prepend(c, Unescape(tail))
    ensures !HasControl(EscapeChar(c))
  {
    var s := EscapeChar(c) + tail;
    if Control(c) {
      var hi, lo := c as int / 16, c as int % 16;
      assert HexValue(HexDigit(hi)) == Some(hi) && HexValue(HexDigit(lo)) == Some(lo);
      assert s[2] == HexDigit(hi) && s[3] == HexDigit(lo) && s[4..] == tail;
      assert (hi * 16 + lo) as char == c;
    } else if c == '\\' {
      assert s[2..] == tail;
    } else {
      assert s[1..] == tail;
    }
  }

  /** The escape is one-to-one, and its output holds no control character. */
  lemma {:induction false} EscapeControlsRoundTrips(s: string)
    ensures Unescape(EscapeControls(s)) == Some(s)
    ensures !HasControl(EscapeControls(s))
  {
    if s != "" {
      EscapeControlsRoundTrips(s[1..]);
      UnescapeOne(s[0], EscapeControls(s[1..]));
      var head, tail := EscapeChar(s[0]), EscapeControls(s[1..]);
      assert [s[0]] + s[1..] == s;
      assert forall k :: 0 <= k < |head + tail| ==> !Control((head + tail)[k]) by {
        assert forall k :: 0 <= k < |head| ==> !Control(head[k]);
        assert forall k :: 0 <= k < |tail| ==> !Control(tail[k]);
      }
    }
  }

  lemma EscapeControlsInjective(a: string, b: string)
    requires EscapeControls(a) == EscapeControls(b)
    ensures a == b
  {
    EscapeControlsRoundTrips(a);
    EscapeControlsRoundTrips(b);
  }

  // ----- rows -----

  datatype Target = Target(selector: string, targetId: string, viewId: string, filename: string, active: bool)

  const ACTIVE_SUFFIX := "  (active)"
  const OPTION_START := "    -t "
  const ATTACHED_START := "    --target="

  /** The selector a row prints: a selector that cannot be listed on one line gives way to the target id. */
  function Printed(t: Target): string {
    if HasControl(t.selector) && t.targetId != "" then t.targetId else t.selector
  }

  function TargetOption(selector: string): string {
    if selector != "" && selector[0] == '-' then "--target=" + Quote(selector) else "-t " + Quote(selector)
  }

  function Metadata(t: Target): string {
    "view_id=" + t.viewId + "  target_id=" + t.targetId + "  " + Quote(EscapeControls(t.filename))
  }

  function Suffix(t: Target): string { if t.active then ACTIVE_SUFFIX else "" }

  function TargetRow(t: Target): string {
    "    " + TargetOption(Printed(t)) + "  " + Metadata(t) + Suffix(t)
  }

  // ----- parsing a row back -----

  predicate StartsWith(s: string, part: string) { part <= s }

  predicate EndsWith(s: string, part: string) {
    |part| <= |s| && s[|s| - |part|..] == part
  }

  /** Where `_ROW_START` leaves off. */
  function RowStart(text: string): Option<nat> {
    if StartsWith(text, OPTION_START) then Some(|OPTION_START|)
    else if StartsWith(text, ATTACHED_START) then Some(|ATTACHED_START|)
    else None
  }

  datatype Row = Row(active: bool, selector: string, metadata: string)

  /** What a printed row shows of its target. */
  function Shown(t: Target): Row {
    Row(t.active, Printed(t), Metadata(t))
  }

  function ReadMetadata(selector: string, metadata: string): Option<Row> {
    if !StartsWith(metadata, "view_id=") then None
    else if EndsWith(metadata, ACTIVE_SUFFIX)
    then Some(Row(true, selector, metadata[..|metadata| - |ACTIVE_SUFFIX|]))
    else Some(Row(false, selector, metadata))
  }

  /** What `_parse_row` answers. */
  function RowOf(text: string): Option<Row> {
    if RowStart(text).None? then None
    else
      var rest := text[RowStart(text).value..];
      var token := FirstToken(rest);
      if token.Unclosed? || token.text.None? then None
      else
        TokenStaysInText(rest, Between, "", false, 0);
        ReadMetadata(token.text.value, Strip(rest[token.used..]))
  }

  /** Nothing is a row that does not state a view after its selector. */
  lemma RowsStateAView(text: string)
    requires RowOf(text).Some?
    ensures |RowOf(text).value.metadata| >= 8 && RowOf(text).value.metadata[..8] == "view_id="
  {
    var rest := text[RowStart(text).value..];
    var token := FirstToken(rest);
    TokenStaysInText(rest, Between, "", false, 0);
    MetadataStatesAView(token.text.value, Strip(rest[token.used..]));
  }

  lemma MetadataStatesAView(selector: string, metadata: string)
    requires ReadMetadata(selector, metadata).Some?
    ensures var m := ReadMetadata(selector, metadata).value.metadata; |m| >= 8 && m[..8] == "view_id="
  {
    if EndsWith(metadata, ACTIVE_SUFFIX) {
      var n := |metadata| - |ACTIVE_SUFFIX|;
      assert metadata[n] == metadata[n..][0] == ACTIVE_SUFFIX[0] == ' ';
      forall k | 0 <= k < 8
        ensures metadata[k] != ' '
      {
        NoBlankInView(k);
        assert metadata[k] == metadata[..8][k];
      }
      assert metadata[..n][..8] == metadata[..8];
    }
  }

  lemma NoBlankInView(k: nat)
    requires k < 8
    ensures "view_id="[k] != ' '
  {
  }

  /** `_parse_row`, driving the lexer. */
  method ParseRow(text: string) returns (row: Option<Row>)
    ensures row == RowOf(text)
  {
    var start := RowStart(text);
    if start.None? {
      return None;
    }
    var rest := text[start.value..];
    var lexer := new Lexer(rest);
    var token := lexer.GetToken();
    if token.Unclosed? || token.text.None? {
      return None;
    }
    row := ReadMetadata(token.text.value, Strip(rest[lexer.pos..]));
  }

  lemma EndsAlike(s: string, part: string)
    requires part != "" && EndsWith(s, part)
    ensures s[|s| - 1] == part[|part| - 1]
  {
    assert s[|s| - |part|..][|part| - 1] == s[|s| - 1];
  }

  lemma StripOneSpace(s: string)
    requires s != "" && !Space(s[0]) && !Space(s[|s| - 1])
    ensures Strip(" " + s) == s
  {
    assert (" " + s)[1..] == s;
    assert LStrip(s) == s && RStrip(s) == s;
  }

  /** Metadata starts with `view_id=` and ends with a character no marker ends with. */
  lemma MetadataEnds(t: Target)
    ensures Metadata(t) != "" && StartsWith(Metadata(t) + Suffix(t), "view_id=") && !Space(Metadata(t)[0])
    ensures var last := Metadata(t)[|Metadata(t)| - 1]; !Space(last) && last != ')'
  {
    var quoted := Quote(EscapeControls(t.filename));
    QuoteEnds(EscapeControls(t.filename));
    var m := Metadata(t);
    assert m[|m| - 1] == quoted[|quoted| - 1];
    assert m[..8] == "view_id=" && m[0] == 'v';
    assert (m + Suffix(t))[..8] == m[..8];
  }

  lemma QuoteEnds(s: string)
    ensures Quote(s) != ""
    ensures var last := Quote(s)[|Quote(s)| - 1]; Safe(last) || last == '\''
  {
  }

  /** What follows the option in a row. */
  function AfterStart(t: Target): string {
    Quote(Printed(t)) + ([' '] + (" " + (Metadata(t) + Suffix(t))))
  }

  function StartFor(selector: string): string {
    if selector != "" && selector[0] == '-' then ATTACHED_START else OPTION_START
  }

  lemma RowParts(t: Target)
    ensures TargetRow(t) == StartFor(Printed(t)) + AfterStart(t)
  {
    var selector := Printed(t);
    var option := OptionFor(selector);
    StartIsOption(selector);
    Reassociate("    ", option, Quote(selector), "  ", Metadata(t), Suffix(t));
    TwoBlanks(Metadata(t) + Suffix(t));
  }

  function OptionFor(selector: string): string {
    if selector != "" && selector[0] == '-' then "--target=" else "-t "
  }

  lemma StartIsOption(selector: string)
    ensures StartFor(selector) == "    " + OptionFor(selector)
    ensures TargetOption(selector) == OptionFor(selector) + Quote(selector)
  {
  }

  lemma TwoBlanks(s: string)
    ensures "  " + s == [' '] + (" " + s)
  {
  }

  lemma Reassociate(a: string, b: string, c: string, d: string, e: string, f: string)
    ensures a + (b + c) + d + e + f == (a + b) + (c + (d + (e + f)))
  {
  }

  lemma StartReads(selector: string, rest: string)
    ensures RowStart(StartFor(selector) + rest) == Some(|StartFor(selector)|)
  {
    var text := StartFor(selector) + rest;
    assert text[..|StartFor(selector)|] == StartFor(selector);
    if StartFor(selector) == ATTACHED_START {
      assert text[5] == '-' && OPTION_START[5] == 't';
    }
  }

  /** A row that tells a target: its marker; its selector, or its id when the selector cannot be listed and it has one;
      and its view, its id and its quoted file name, each in its place. */
  predicate Tells(row: Row, t: Target) {
    && row.active == t.active
    && row.selector == (if t.targetId != "" && HasControl(t.selector) then t.targetId else t.selector)
    && row.metadata == "view_id=" + t.viewId + ("  target_id=" + t.targetId + ("  " + Quote(EscapeControls(t.filename))))
  }

  lemma ShownTells(t: Target)
    ensures Tells(Shown(t), t)
  {
    InThree("view_id=" + t.viewId, "  target_id=" + t.targetId, "  " + Quote(EscapeControls(t.filename)));
    FourAndOne("view_id=" + t.viewId, "  target_id=", t.targetId, "  ", Quote(EscapeControls(t.filename)));
  }

  lemma InThree(a: string, b: string, c: string)
    ensures a + b + c == a + (b + c)
  {
  }

  lemma FourAndOne(a: string, b: string, c: string, d: string, e: string)
    ensures a + b + c + d + e == a + (b + c) + (d + e)
  {
  }

  /** Any target at all, printed as a row and parsed, gives back its marker, the selector printed and its
      metadata: empty and quoted selectors, leading dashes, and file names ending like the marker included. */
  lemma RowRoundTrips(t: Target)
    ensures RowOf(TargetRow(t)) == Some(Shown(t))
    ensures RowOf(TargetRow(t)).Some? && Tells(RowOf(TargetRow(t)).value, t)
  {
    ShownTells(t);
    RowBegins(t);
    TokenReads(t);
    StripsToMetadata(t);
    MarkerReads(t);
    RowReads(TargetRow(t), |StartFor(Printed(t))|, AfterStart(t), Printed(t), |Quote(Printed(t))| + 1);
  }

  lemma RowBegins(t: Target)
    ensures RowStart(TargetRow(t)) == Some(|StartFor(Printed(t))|) && |StartFor(Printed(t))| <= |TargetRow(t)|
    ensures TargetRow(t)[|StartFor(Printed(t))|..] == AfterStart(t)
  {
    RowParts(t);
    StartReads(Printed(t), AfterStart(t));
  }

  lemma TokenReads(t: Target)
    ensures var used := |Quote(Printed(t))| + 1;
            && used <= |AfterStart(t)| && AfterStart(t)[used..] == " " + (Metadata(t) + Suffix(t))
            && FirstToken(AfterStart(t)) == Token(Some(Printed(t)), used)
  {
    var after := " " + (Metadata(t) + Suffix(t));
    assert AfterStart(t) == Quote(Printed(t)) + [' '] + after;
    QuoteLexes(Printed(t), ' ', after);
  }

  /** A text that starts a row, reads one token and then metadata is that row. */
  lemma RowReads(text: string, start: nat, rest: string, selector: string, used: nat)
    requires RowStart(text) == Some(start) && start <= |text| && text[start..] == rest && used <= |rest|
    requires FirstToken(rest) == Token(Some(selector), used)
    ensures RowOf(text) == ReadMetadata(selector, Strip(rest[used..]))
  {
  }

  lemma StripsToMetadata(t: Target)
    ensures Strip(" " + (Metadata(t) + Suffix(t))) == Metadata(t) + Suffix(t)
  {
    MetadataEnds(t);
    var m := Metadata(t) + Suffix(t);
    assert m[0] == Metadata(t)[0];
    assert m[|m| - 1] == if t.active then ')' else Metadata(t)[|Metadata(t)| - 1];
    StripOneSpace(m);
  }

  lemma MarkerReads(t: Target)
    ensures ReadMetadata(Printed(t), Metadata(t) + Suffix(t)) == Some(Shown(t))
  {
    MetadataEnds(t);
    var m := Metadata(t) + Suffix(t);
    if t.active {
      assert m[|m| - |ACTIVE_SUFFIX|..] == ACTIVE_SUFFIX && m[..|m| - |ACTIVE_SUFFIX|] == Metadata(t);
    } else {
      assert m == Metadata(t);
      if EndsWith(m, ACTIVE_SUFFIX) {
        EndsAlike(m, ACTIVE_SUFFIX);
      }
    }
  }
}
