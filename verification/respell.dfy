/** Respelling a multi-target hint: one command line per listed target, whatever surrounds the listing. */
module Respell {
  import opened Json
  import opened Shlex
  import opened Lines
  import opened TargetHint

  const SELECT_HINT_LINE := "Pass " + "-t <selector> (--target) to choose one."
  const OPEN_HEADING := "Open targets:"
  const MATCHING_HEADING := "Matching targets:"
  const STABLE_ID_NOTE := "note: " + "view_id / target_id are " + "stable across `bn save`"

  /** The fixed lines are single lines, told apart by their first character. */
  lemma FixedLines()
    ensures '\n' !in SELECT_HINT_LINE && '\n' !in STABLE_ID_NOTE
    ensures SELECT_HINT_LINE[0] == 'P' && STABLE_ID_NOTE[0] == 'n'
  {
    assert '\n' !in "Pass " && '\n' !in "-t <selector> (--target) to choose one.";
    assert '\n' !in "note: " && '\n' !in "view_id / target_id are " && '\n' !in "stable across `bn save`";
  }

  // ----- printing the hint -----

  function Rows(targets: seq<Target>): seq<string> {
    if targets == [] then [] else [TargetRow(targets[0])] + Rows(targets[1..])
  }

  /** `format_multi_target_hint`. */
  function Format(headline: string, targets: seq<Target>): string {
    Join([headline, SELECT_HINT_LINE, OPEN_HEADING] + Rows(targets) + [STABLE_ID_NOTE])
  }

  // ----- respelling any message -----

  function Instruction(example: string): string { "Run one of these to choose: " + example }

  function Command(render: string -> string, row: Row): string {
    "  " + render(row.selector) + "  # " + (if row.active then "active  " else "") + row.metadata
  }

  datatype Joined = Joined(used: nat, row: Row)

  /** The shortest run of lines, from `n` of them up, that parses as one row. */
  function JoinedRow(lines: seq<string>, n: nat): (j: Option<Joined>)
    requires 1 <= n
    ensures j.Some? ==> n <= j.value.used <= |lines|
    decreases |lines| - n
  {
    if n > |lines| then None
    else if RowOf(Join(lines[..n])).Some? then Some(Joined(n, RowOf(Join(lines[..n])).value))
    else JoinedRow(lines, n + 1)
  }

  /** The listing, line by line; a row that spans lines is consumed whole, and anything that is no row is kept. */
  function RespellLines(lines: seq<string>, render: string -> string, example: string): seq<string>
    decreases |lines|
  {
    if lines == [] then []
    else if lines[0] == SELECT_HINT_LINE then [Instruction(example)] + RespellLines(lines[1..], render, example)
    else
      var joined := if RowStart(lines[0]).Some? then JoinedRow(lines, 1) else None;
      if joined.None? then [lines[0]] + RespellLines(lines[1..], render, example)
      else [Command(render, joined.value.row)] + RespellLines(lines[joined.value.used..], render, example)
  }

  function Heading(message: string): int {
    Max(RFind(message, "\n" + OPEN_HEADING + "\n"), RFind(message, "\n" + MATCHING_HEADING + "\n"))
  }

  function Max(a: int, b: int): int { if a < b then b else a }

  /** `_respell_rows`. */
  function Respelled(message: string, render: string -> string, example: string): string {
    var heading := Heading(message);
    if heading < 0 then message
    else Replace(message[..heading + 1], SELECT_HINT_LINE, Instruction(example))
         + Join(RespellLines(SplitLines(message[heading + 1..]), render, example))
  }

  /** Join lines from `index` until they parse as a row, or the listing ends. */
  method JoinUntilRow(lines: seq<string>, index: nat) returns (parsed: Option<Row>, end: nat)
    requires index < |lines|
    ensures parsed.None? ==> JoinedRow(lines[index..], 1).None?
    ensures parsed.Some? ==> index < end <= |lines| && JoinedRow(lines[index..], 1) == Some(Joined(end - index, parsed.value))
  {
    parsed, end := None, index;
    while end < |lines| && parsed.None?
      invariant index <= end <= |lines|
      invariant parsed.None? ==> JoinedRow(lines[index..], 1) == JoinedRow(lines[index..], end - index + 1)
      invariant parsed.Some? ==> end > index && JoinedRow(lines[index..], 1) == Some(Joined(end - index, parsed.value))
    {
      assert lines[index..][..end - index + 1] == lines[index..end + 1];
      parsed := ParseRow(Join(lines[index..end + 1]));
      end := end + 1;
    }
  }

  /** One visit of the loop over the listing: at the instruction, at a row, and at anything else. */
  lemma HintStep(lines: seq<string>, index: nat, render: string -> string, example: string)
    requires index < |lines| && lines[index] == SELECT_HINT_LINE
    ensures RespellLines(lines[index..], render, example) ==
            [Instruction(example)] + RespellLines(lines[index + 1..], render, example)
  {
    assert lines[index..][1..] == lines[index + 1..];
  }

  lemma RowStep(lines: seq<string>, index: nat, end: nat, row: Row, render: string -> string, example: string)
    requires index < end <= |lines| && lines[index] != SELECT_HINT_LINE && RowStart(lines[index]).Some?
    requires JoinedRow(lines[index..], 1) == Some(Joined(end - index, row))
    ensures RespellLines(lines[index..], render, example) ==
            [Command(render, row)] + RespellLines(lines[end..], render, example)
  {
    assert lines[index..][end - index..] == lines[end..];
  }

  lemma PlainStep(lines: seq<string>, index: nat, render: string -> string, example: string)
    requires index < |lines| && lines[index] != SELECT_HINT_LINE
    requires RowStart(lines[index]).None? || JoinedRow(lines[index..], 1).None?
    ensures RespellLines(lines[index..], render, example) ==
            [lines[index]] + RespellLines(lines[index + 1..], render, example)
  {
    assert lines[index..][1..] == lines[index + 1..];
  }

  /** The body of the loop over the listing: the cell appended and where `index` goes. */
  method RespellOne(lines: seq<string>, index: nat, render: string -> string, example: string)
    returns (cell: string, next: nat)
    requires index < |lines|
    ensures index < next <= |lines|
    ensures RespellLines(lines[index..], render, example) == [cell] + RespellLines(lines[next..], render, example)
  {
    var line := lines[index];
    if line == SELECT_HINT_LINE {
      HintStep(lines, index, render, example);
      return Instruction(example), index + 1;
    }
    if RowStart(line).Some? {
      var parsed, end := JoinUntilRow(lines, index);
      if parsed.Some? {
        RowStep(lines, index, end, parsed.value, render, example);
        return Command(render, parsed.value), end;
      }
    }
    PlainStep(lines, index, render, example);
    return line, index + 1;
  }

  /** The loop over the listing: `index` walks it, and always moves on. */
  method RespellListing(lines: seq<string>, render: string -> string, example: string) returns (out: seq<string>)
    ensures out == RespellLines(lines, render, example)
  {
    out := [];
    var index := 0;
    while index < |lines|
      invariant 0 <= index <= |lines|
      invariant out + RespellLines(lines[index..], render, example) == RespellLines(lines, render, example)
    {
      var cell, next := RespellOne(lines, index, render, example);
      Regroup(out, [cell], RespellLines(lines[next..], render, example));
      out, index := out + [cell], next;
    }
    assert lines[index..] == [] && out + [] == out;
  }

  method RespellRows(message: string, render: string -> string, example: string) returns (text: string)
    ensures text == Respelled(message, render, example)
  {
    var heading := Max(RFind(message, "\n" + OPEN_HEADING + "\n"), RFind(message, "\n" + MATCHING_HEADING + "\n"));
    if heading < 0 {
      return message;
    }
    var out := RespellListing(SplitLines(message[heading + 1..]), render, example);
    text := Replace(message[..heading + 1], SELECT_HINT_LINE, Instruction(example)) + Join(out);
  }

  // ----- what a listed target must not do -----

  /** After a newline, never the start of a heading. */
  predicate Benign(s: string) {
    forall k :: 0 <= k < |s| - 1 && s[k] == '\n' ==> s[k + 1] != 'O' && s[k + 1] != 'M'
  }

  /** Ids on one line; a selector that is printed although it holds newlines starts no line like a heading. */
  predicate Listable(t: Target) {
    '\n' !in t.viewId && '\n' !in t.targetId && Benign(Printed(t))
  }

  /** Records whose ids hold no control characters, and that have an id whenever the selector needs one, can
      always be listed. */
  lemma OrdinaryRecordsAreListable(t: Target)
    requires !HasControl(t.viewId) && !HasControl(t.targetId)
    requires HasControl(t.selector) ==> t.targetId != ""
    ensures Listable(t) && '\n' !in Printed(t)
  {
    assert Control('\n');
    assert forall s: string :: !HasControl(s) ==> '\n' !in s;
  }

  lemma BenignAppend(a: string, b: string)
    requires Benign(a) && Benign(b)
    requires a != "" && a[|a| - 1] == '\n' && b != "" ==> b[0] != 'O' && b[0] != 'M'
    ensures Benign(a + b)
  {
  }

  lemma {:induction false} BodyIsBenign(s: string)
    requires Benign(s)
    ensures Benign(Body(s))
  {
    if s != "" {
      assert forall k :: 0 <= k < |s| - 1 ==> s[1..][k] == s[k + 1];
      BodyIsBenign(s[1..]);
      var head := if s[0] == '\'' then "'\"'\"'" else [s[0]];
      if |s| > 1 {
        assert Body(s[1..])[0] in {'\'', s[1]};
      }
      BenignAppend(head, Body(s[1..]));
    }
  }

  lemma QuoteIsBenign(s: string)
    requires Benign(s)
    ensures Benign(Quote(s))
    ensures Quote(s) != "" && Quote(s)[|Quote(s)| - 1] != '\n'
  {
    QuoteEnds(s);
    if s != "" && !AllSafe(s) {
      BodyIsBenign(s);
      BenignAppend("'", Body(s));
      BenignAppend("'" + Body(s), "'");
    }
  }

  // ----- a row inside the listing -----

  lemma {:induction false} BodyAddsNoNewline(s: string)
    requires '\n' !in s
    ensures '\n' !in Body(s)
  {
    if s != "" {
      BodyAddsNoNewline(s[1..]);
    }
  }

  lemma QuoteAddsNoNewline(s: string)
    requires '\n' !in s
    ensures '\n' !in Quote(s)
  {
    BodyAddsNoNewline(s);
  }

  lemma MetadataIsOneLine(t: Target)
    requires Listable(t)
    ensures '\n' !in " " + (Metadata(t) + Suffix(t))
  {
    EscapeControlsRoundTrips(t.filename);
    var name := EscapeControls(t.filename);
    assert Control('\n');
    assert forall k :: 0 <= k < |name| ==> name[k] != '\n';
    QuoteAddsNoNewline(name);
    assert '\n' !in Metadata(t);
  }

  /** A row cut at one of its newlines is cut inside the quoted selector, so it is no row yet. */
  lemma CutRowIsNoRow(t: Target, p: nat)
    requires Listable(t) && p < |TargetRow(t)| && TargetRow(t)[p] == '\n'
    ensures RowOf(TargetRow(t)[..p]).None? && RowStart(TargetRow(t)[..p]).Some?
    ensures TargetRow(t)[..p] != "" && TargetRow(t)[0] == ' '
  {
    var start, selector, after := StartFor(Printed(t)), Printed(t), [' '] + (" " + (Metadata(t) + Suffix(t)));
    RowParts(t);
    MetadataIsOneLine(t);
    var q := p - |start|;
    NewlineIsQuoted(start, Quote(selector), after, p);
    QuotedNewline(selector, q);
    BodyCut(selector, q - 1);
    var j :| 0 <= j < |selector| && selector[j] == '\n' && Body(selector)[..q - 1] == Body(selector[..j]);
    CutInQuote(start, Body(selector), after, q);
    CutTextIsNoRow(selector, selector[..j]);
  }

  lemma NewlineIsQuoted(start: string, quoted: string, after: string, p: nat)
    requires '\n' !in start && '\n' !in after
    requires p < |start + (quoted + after)| && (start + (quoted + after))[p] == '\n'
    ensures |start| <= p < |start| + |quoted| && quoted[p - |start|] == '\n'
  {
    var rest := quoted + after;
    assert forall k :: 0 <= k < |start| ==> (start + rest)[k] == start[k];
    assert forall k :: |start| <= k < |start + rest| ==> (start + rest)[k] == rest[k - |start|];
    assert forall k :: |quoted| <= k < |rest| ==> rest[k] == after[k - |quoted|];
  }

  lemma QuotedNewline(selector: string, q: nat)
    requires q < |Quote(selector)| && Quote(selector)[q] == '\n'
    ensures Quote(selector) == "'" + Body(selector) + "'"
    ensures 1 <= q <= |Body(selector)| && Body(selector)[q - 1] == '\n'
  {
  }

  lemma CutInQuote(start: string, body: string, after: string, q: nat)
    requires 1 <= q <= |body|
    ensures (start + ("'" + body + "'" + after))[..|start| + q] == start + ("'" + body[..q - 1])
  {
  }

  lemma CutTextIsNoRow(selector: string, part: string)
    ensures var text := StartFor(selector) + ("'" + Body(part)); RowOf(text).None? && RowStart(text).Some?
  {
    var start, rest := StartFor(selector), "'" + Body(part);
    StartReads(selector, rest);
    assert (start + rest)[|start|..] == rest;
    CutQuoteIsUnclosed(part);
  }

  /** The lines of a row, whatever lines follow, are taken as exactly that row. */
  lemma RowIsTakenWhole(t: Target, rest: seq<string>)
    requires Listable(t)
    ensures var lines := SplitLines(TargetRow(t));
            && RowStart(lines[0]).Some? && lines[0] != SELECT_HINT_LINE
            && JoinedRow(lines + rest, 1) == Some(Joined(|lines|, Shown(t)))
  {
    FirstLineStarts(t);
    FixedLines();
    JoinedUpTo(t, rest, 1);
  }

  lemma FirstLineStarts(t: Target)
    requires Listable(t)
    ensures var line := SplitLines(TargetRow(t))[0]; RowStart(line).Some? && line != "" && line[0] == ' '
  {
    var row, lines := TargetRow(t), SplitLines(TargetRow(t));
    RowParts(t);
    if |lines| == 1 {
      assert lines[0] == row;
      StartReads(Printed(t), AfterStart(t));
    } else {
      CutAtNewline(row, 1);
      var p :| 0 <= p < |row| && row[p] == '\n' && Join(lines[..1]) == row[..p];
      CutRowIsNoRow(t, p);
      assert lines[..1] == [lines[0]];
    }
  }

  lemma JoinedUpTo(t: Target, rest: seq<string>, n: nat)
    requires Listable(t) && 1 <= n <= |SplitLines(TargetRow(t))|
    ensures JoinedRow(SplitLines(TargetRow(t)) + rest, n) ==
            Some(Joined(|SplitLines(TargetRow(t))|, Shown(t)))
  {
    var lines := SplitLines(TargetRow(t));
    SplitJoined(TargetRow(t));
    RowRoundTrips(t);
    forall m | 1 <= m < |lines|
      ensures RowOf(Join(lines[..m])).None?
    {
      PrefixIsNoRow(t, m);
    }
    JoinedWhole(lines, rest, n, Shown(t));
  }

  lemma PrefixIsNoRow(t: Target, m: nat)
    requires Listable(t) && 1 <= m < |SplitLines(TargetRow(t))|
    ensures RowOf(Join(SplitLines(TargetRow(t))[..m])).None?
  {
    var row := TargetRow(t);
    CutAtNewline(row, m);
    var p :| 0 <= p < |row| && row[p] == '\n' && Join(SplitLines(row)[..m]) == row[..p];
    CutRowIsNoRow(t, p);
  }

  /** Joining goes on past every prefix that is no row and stops where the lines make one. */
  lemma {:induction false} JoinedWhole(lines: seq<string>, rest: seq<string>, n: nat, row: Row)
    requires 1 <= n <= |lines| && RowOf(Join(lines)) == Some(row)
    requires forall m :: 1 <= m < |lines| ==> RowOf(Join(lines[..m])).None?
    ensures JoinedRow(lines + rest, n) == Some(Joined(|lines|, row))
    decreases |lines| - n
  {
    assert (lines + rest)[..n] == lines[..n];
    if n == |lines| {
      assert lines[..n] == lines;
    } else {
      JoinedWhole(lines, rest, n + 1, row);
    }
  }

  // ----- the whole listing -----

  function RowLines(targets: seq<Target>): seq<string> {
    if targets == [] then [] else SplitLines(TargetRow(targets[0])) + RowLines(targets[1..])
  }

  function Commands(targets: seq<Target>, render: string -> string): (commands: seq<string>)
    ensures |commands| == |targets|
    ensures forall k :: 0 <= k < |targets| ==>
              commands[k] == Command(render, Shown(targets[k]))
  {
    if targets == [] then []
    else [Command(render, Shown(targets[0]))] + Commands(targets[1..], render)
  }

  /** What follows the rows of a listing: the note of a hint, or nothing, as in the message on an ambiguous selector. */
  predicate Ends(ending: seq<string>) {
    ending == [] || ending == [STABLE_ID_NOTE]
  }

  lemma {:induction false} ListingLines(targets: seq<Target>, ending: seq<string>)
    requires Ends(ending) && (targets != [] || ending != [])
    ensures SplitLines(Join(Rows(targets) + ending)) == RowLines(targets) + ending
  {
    if targets == [] {
      NoteLine();
    } else {
      var row, rows := TargetRow(targets[0]), Rows(targets[1..]);
      if rows + ending == [] {
        assert Rows(targets) + ending == [row] && RowLines(targets) + ending == SplitLines(row) + [];
      } else {
        assert Rows(targets) + ending == [row] + (rows + ending);
        JoinMore(row, rows + ending);
        SplitAcross(row, Join(rows + ending));
        ListingLines(targets[1..], ending);
        Regroup(SplitLines(row), RowLines(targets[1..]), ending);
      }
    }
  }

  lemma NoteLine()
    ensures SplitLines(Join(Rows([]) + [STABLE_ID_NOTE])) == RowLines([]) + [STABLE_ID_NOTE]
  {
    FixedLines();
    LineEndOf(STABLE_ID_NOTE, "");
    assert STABLE_ID_NOTE + "" == STABLE_ID_NOTE;
    assert Rows([]) + [STABLE_ID_NOTE] == [STABLE_ID_NOTE] == RowLines([]) + [STABLE_ID_NOTE];
  }

  lemma NoteIsKept(render: string -> string, example: string)
    ensures RespellLines([STABLE_ID_NOTE], render, example) == [STABLE_ID_NOTE]
  {
    FixedLines();
    assert OPTION_START[0] == ' ' && ATTACHED_START[0] == ' ';
    assert RowStart(STABLE_ID_NOTE).None?;
    assert [STABLE_ID_NOTE][1..] == [];
  }

  lemma RowRespells(t: Target, rest: seq<string>, render: string -> string, example: string)
    requires Listable(t)
    ensures RespellLines(SplitLines(TargetRow(t)) + rest, render, example) ==
            [Command(render, Shown(t))] + RespellLines(rest, render, example)
  {
    var lines := SplitLines(TargetRow(t));
    RowIsTakenWhole(t, rest);
    assert (lines + rest)[0] == lines[0] && (lines + rest)[|lines|..] == rest;
  }

  lemma {:induction false} ListingRespells(targets: seq<Target>, ending: seq<string>, render: string -> string, example: string)
    requires Ends(ending) && forall k :: 0 <= k < |targets| ==> Listable(targets[k])
    ensures RespellLines(RowLines(targets) + ending, render, example) == Commands(targets, render) + ending
  {
    if targets == [] {
      if ending != [] {
        NoteIsKept(render, example);
      }
      assert RowLines(targets) + ending == ending == Commands(targets, render) + ending;
    } else {
      var t, more := targets[0], targets[1..];
      ListingRespells(more, ending, render, example);
      RowRespells(t, RowLines(more) + ending, render, example);
      Regroup(SplitLines(TargetRow(t)), RowLines(more), ending);
      Regroup([Command(render, Shown(t))], Commands(more, render), ending);
    }
  }

  lemma SnocAll(a: seq<string>, b: seq<string>, last: string)
    ensures a + b + [last] == a + (b + [last])
  {
  }

  // ----- which heading is trusted -----

  lemma RowIsBenign(t: Target)
    requires Listable(t)
    ensures Benign(TargetRow(t)) && TargetRow(t) != "" && TargetRow(t)[0] == ' '
    ensures TargetRow(t)[|TargetRow(t)| - 1] != '\n'
  {
    var start, quoted, after := StartFor(Printed(t)), Quote(Printed(t)), [' '] + (" " + (Metadata(t) + Suffix(t)));
    RowParts(t);
    MetadataIsOneLine(t);
    QuoteIsBenign(Printed(t));
    NoNewlineIsBenign(start);
    NoNewlineIsBenign(after);
    BenignAppend(quoted, after);
    BenignAppend(start, quoted + after);
    assert TargetRow(t) == start + (quoted + after);
    assert TargetRow(t)[|TargetRow(t)| - 1] == after[|after| - 1] && after[|after| - 1] in after;
  }

  lemma NoNewlineIsBenign(s: string)
    requires '\n' !in s
    ensures Benign(s)
  {
    assert forall k :: 0 <= k < |s| ==> s[k] in s;
  }

  lemma {:induction false} ListingIsBenign(targets: seq<Target>, ending: seq<string>)
    requires Ends(ending) && (targets != [] || ending != [])
    requires forall k :: 0 <= k < |targets| ==> Listable(targets[k])
    ensures var tail := Join(Rows(targets) + ending); Benign(tail) && tail != "" && tail[0] in {' ', 'n'}
  {
    if targets == [] {
      FixedLines();
      NoNewlineIsBenign(STABLE_ID_NOTE);
      assert Rows(targets) + ending == [STABLE_ID_NOTE];
    } else {
      var row, more := TargetRow(targets[0]), Rows(targets[1..]) + ending;
      RowIsBenign(targets[0]);
      if more == [] {
        assert Rows(targets) + ending == [row];
      } else {
        assert Rows(targets) + ending == [row] + more;
        JoinMore(row, more);
        ListingIsBenign(targets[1..], ending);
        BenignAppend(row, "\n");
        BenignAppend(row + "\n", Join(more));
      }
    }
  }

  /** After the real heading no other can be found: none of the two can start later. */
  lemma NoLaterHeading(before: string, heading: string, tail: string, part: string, k: int)
    requires '\n' !in heading && Benign(tail) && tail != "" && tail[0] in {' ', 'n'}
    requires |part| >= 2 && part[0] == '\n' && part[1] in {'O', 'M'}
    requires Occurs(before + ("\n" + (heading + ("\n" + tail))), part, k)
    ensures k <= |before|
  {
    var rest := "\n" + (heading + ("\n" + tail));
    var message, after := before + rest, "\n" + tail;
    assert message[k] == message[k..k + |part|][0] == '\n';
    assert message[k + 1] == message[k..k + |part|][1];
    if k > |before| {
      var q := k - |before| - 1;
      TailAt(before, heading, after, k);
      BenignAppend("\n", tail);
    }
  }

  lemma TailAt(before: string, heading: string, after: string, k: int)
    requires '\n' !in heading && after != "" && |before| < k < |before + ("\n" + (heading + after))| - 1
    requires (before + ("\n" + (heading + after)))[k] == '\n'
    ensures var q := k - |before| - 1 - |heading|;
            0 <= q < |after| - 1 && after[q] == '\n' && (before + ("\n" + (heading + after)))[k + 1] == after[q + 1]
  {
    var inner := heading + after;
    assert (before + ("\n" + inner))[k] == inner[k - |before| - 1];
    assert (before + ("\n" + inner))[k + 1] == inner[k - |before|];
    assert forall j :: 0 <= j < |heading| ==> inner[j] in heading;
  }

  predicate IsHeading(heading: string) { heading == OPEN_HEADING || heading == MATCHING_HEADING }

  lemma HeadingsApart()
    ensures OPEN_HEADING[0] == 'O' && '\n' !in OPEN_HEADING && MATCHING_HEADING[0] == 'M' && '\n' !in MATCHING_HEADING
  {
  }

  /** The heading found is the one the message itself printed, whatever stands before it. */
  lemma HeadingFound(before: string, heading: string, tail: string)
    requires IsHeading(heading) && Benign(tail) && tail != "" && tail[0] in {' ', 'n'}
    ensures Heading(before + ("\n" + (heading + ("\n" + tail)))) == |before|
  {
    HeadingStands(before, heading, tail);
    NothingLater(before, heading, tail, OPEN_HEADING);
    NothingLater(before, heading, tail, MATCHING_HEADING);
  }

  lemma HeadingStands(before: string, heading: string, tail: string)
    ensures Occurs(before + ("\n" + (heading + ("\n" + tail))), "\n" + heading + "\n", |before|)
  {
    var part, rest := "\n" + heading + "\n", "\n" + (heading + ("\n" + tail));
    assert rest == part + tail;
    assert rest[..|part|] == part;
    assert (before + rest)[|before|..|before| + |part|] == rest[..|part|];
  }

  lemma NothingLater(before: string, heading: string, tail: string, other: string)
    requires IsHeading(heading) && IsHeading(other) && Benign(tail) && tail != "" && tail[0] in {' ', 'n'}
    ensures RFind(before + ("\n" + (heading + ("\n" + tail))), "\n" + other + "\n") <= |before|
  {
    HeadingsApart();
    var part := "\n" + other + "\n";
    assert part[1] == other[0];
    var k := RFind(before + ("\n" + (heading + ("\n" + tail))), part);
    if k >= 0 {
      NoLaterHeading(before, heading, tail, part, k);
    }
  }

  // ----- the theorem -----

  lemma FormatParts(headline: string, targets: seq<Target>)
    ensures Format(headline, targets) ==
            headline + "\n" + SELECT_HINT_LINE + ("\n" + (OPEN_HEADING + ("\n" + Join(Rows(targets) + [STABLE_ID_NOTE]))))
  {
    var rows := Rows(targets) + [STABLE_ID_NOTE];
    SnocAll([headline, SELECT_HINT_LINE, OPEN_HEADING], Rows(targets), STABLE_ID_NOTE);
    JoinThree(headline, SELECT_HINT_LINE, OPEN_HEADING, rows);
  }

  lemma JoinThree(a: string, b: string, c: string, rest: seq<string>)
    requires rest != []
    ensures Join([a, b, c] + rest) == a + "\n" + b + ("\n" + (c + ("\n" + Join(rest))))
  {
    assert [a, b, c] + rest == [a] + ([b] + ([c] + rest));
    JoinMore(c, rest);
    JoinMore(b, [c] + rest);
    JoinMore(a, [b] + ([c] + rest));
    Glue(a, b, c + "\n" + Join(rest));
    Glue2(c, Join(rest));
  }

  lemma Glue(a: string, b: string, c: string)
    ensures a + "\n" + (b + "\n" + c) == a + "\n" + b + ("\n" + c)
  {
  }

  lemma Glue2(c: string, rest: string)
    ensures c + "\n" + rest == c + ("\n" + rest)
  {
  }

  /** A command line for a target, letter by letter: the rendered selector (its id when the selector cannot be listed and
      it has one), then as a note its marker, its view, its id and its quoted file name. */
  predicate Runs(line: string, t: Target, render: string -> string) {
    var selector := if t.targetId != "" && HasControl(t.selector) then t.targetId else t.selector;
    var marker := if t.active then "active  " else "";
    line == "  " + render(selector) + "  # " + marker
            + ("view_id=" + t.viewId + ("  target_id=" + t.targetId + ("  " + Quote(EscapeControls(t.filename)))))
  }

  predicate RunEach(lines: seq<string>, targets: seq<Target>, render: string -> string) {
    |lines| == |targets| && forall k :: 0 <= k < |lines| ==> Runs(lines[k], targets[k], render)
  }

  lemma CommandsRunEach(targets: seq<Target>, render: string -> string)
    ensures RunEach(Commands(targets, render), targets, render)
  {
    forall k | 0 <= k < |targets|
      ensures Runs(Commands(targets, render)[k], targets[k], render)
    {
      ShownTells(targets[k]);
      CommandSpelled(Shown(targets[k]), render);
    }
  }

  lemma CommandSpelled(row: Row, render: string -> string)
    ensures Command(render, row) == "  " + render(row.selector) + "  # " + (if row.active then "active  " else "") + row.metadata
  {
  }

  /** A hint respelled: the headline's own copies of the instruction and the instruction itself are replaced,
      nothing else of the prefix is touched, and then come exactly one command per target, in order, carrying
      that target's selector, marker and metadata. No headline changes this. */
  lemma HintRespells(headline: string, targets: seq<Target>, render: string -> string, example: string)
    requires forall k :: 0 <= k < |targets| ==> Listable(targets[k])
    ensures Respelled(Format(headline, targets), render, example) ==
            Replace(headline, SELECT_HINT_LINE, Instruction(example)) + "\n" + Instruction(example) + "\n"
            + Join([OPEN_HEADING] + Commands(targets, render) + [STABLE_ID_NOTE])
    ensures RunEach(Commands(targets, render), targets, render)
    ensures Instruction(example) == "Run one of these to choose: " + example
  {
    CommandsRunEach(targets, render);
    var before, tail := headline + "\n" + SELECT_HINT_LINE, Join(Rows(targets) + [STABLE_ID_NOTE]);
    var listing := OPEN_HEADING + ("\n" + tail);
    var message := before + ("\n" + listing);
    FormatParts(headline, targets);
    ListingIsBenign(targets, [STABLE_ID_NOTE]);
    HeadingFound(before, OPEN_HEADING, tail);
    RespelledAt(before, listing, render, example);
    PrefixRespells(headline, example);
    ListingOf(OPEN_HEADING, targets, [STABLE_ID_NOTE], render, example);
  }

  lemma RespelledAt(before: string, listing: string, render: string -> string, example: string)
    requires Heading(before + ("\n" + listing)) == |before|
    ensures Respelled(before + ("\n" + listing), render, example) ==
            Replace(before + "\n", SELECT_HINT_LINE, Instruction(example))
            + Join(RespellLines(SplitLines(listing), render, example))
  {
    var message := before + ("\n" + listing);
    assert message[..|before| + 1] == before + "\n" && message[|before| + 1..] == listing;
  }

  lemma PrefixRespells(headline: string, example: string)
    ensures Replace(headline + "\n" + SELECT_HINT_LINE + "\n", SELECT_HINT_LINE, Instruction(example)) ==
            Replace(headline, SELECT_HINT_LINE, Instruction(example)) + "\n" + Instruction(example) + "\n"
  {
    FixedLines();
    ReplaceAcross(headline, SELECT_HINT_LINE, SELECT_HINT_LINE, Instruction(example));
    ReplaceAcross(headline + "\n" + SELECT_HINT_LINE, "", SELECT_HINT_LINE, Instruction(example));
    ReplaceWhole(SELECT_HINT_LINE, Instruction(example));
    assert headline + "\n" + SELECT_HINT_LINE + "\n" + "" == headline + "\n" + SELECT_HINT_LINE + "\n";
  }

  lemma ListingOf(heading: string, targets: seq<Target>, ending: seq<string>, render: string -> string, example: string)
    requires IsHeading(heading) && Ends(ending) && (targets != [] || ending != [])
    requires forall k :: 0 <= k < |targets| ==> Listable(targets[k])
    ensures RespellLines(SplitLines(heading + ("\n" + Join(Rows(targets) + ending))), render, example) ==
            [heading] + Commands(targets, render) + ending
  {
    HeadingLine(heading, Join(Rows(targets) + ending));
    ListingLines(targets, ending);
    HeadingIsKept(heading, RowLines(targets) + ending, render, example);
    ListingRespells(targets, ending, render, example);
    Regroup([heading], Commands(targets, render), ending);
  }

  lemma HeadingLine(heading: string, tail: string)
    requires IsHeading(heading)
    ensures SplitLines(heading + ("\n" + tail)) == [heading] + SplitLines(tail)
  {
    HeadingsApart();
    Glue2(heading, tail);
    SplitStep(heading, tail);
  }

  lemma HeadingIsKept(heading: string, lines: seq<string>, render: string -> string, example: string)
    requires IsHeading(heading)
    ensures RespellLines([heading] + lines, render, example) == [heading] + RespellLines(lines, render, example)
  {
    FixedLines();
    HeadingsApart();
    assert OPTION_START[0] == ' ' && ATTACHED_START[0] == ' ';
    assert RowStart(heading).None?;
    assert ([heading] + lines)[1..] == lines;
  }

  /** The message on an ambiguous selector, whatever its explanation says: its matching targets become one command each, in
      order, and nothing follows them. */
  lemma AmbiguousMessageRespells(explained: string, targets: seq<Target>, render: string -> string, example: string)
    requires targets != [] && forall k :: 0 <= k < |targets| ==> Listable(targets[k])
    ensures Respelled(Join([explained, MATCHING_HEADING] + Rows(targets)), render, example) ==
            Replace(explained + "\n", SELECT_HINT_LINE, Instruction(example))
            + Join([MATCHING_HEADING] + Commands(targets, render))
    ensures RunEach(Commands(targets, render), targets, render)
  {
    CommandsRunEach(targets, render);
    var tail := Join(Rows(targets));
    assert Rows(targets) + [] == Rows(targets);
    JoinTwo(explained, MATCHING_HEADING, Rows(targets));
    ListingIsBenign(targets, []);
    HeadingFound(explained, MATCHING_HEADING, tail);
    RespelledAt(explained, MATCHING_HEADING + ("\n" + tail), render, example);
    ListingOf(MATCHING_HEADING, targets, [], render, example);
    assert [MATCHING_HEADING] + Commands(targets, render) + [] == [MATCHING_HEADING] + Commands(targets, render);
  }

  lemma JoinTwo(a: string, b: string, rest: seq<string>)
    requires rest != []
    ensures Join([a, b] + rest) == a + ("\n" + (b + ("\n" + Join(rest))))
  {
    assert [a, b] + rest == [a] + ([b] + rest);
    JoinMore(b, rest);
    JoinMore(a, [b] + rest);
    Glue2(b, Join(rest));
    Glue2(a, b + ("\n" + Join(rest)));
  }

  /** A headline that never quotes the instruction is passed through as it is. */
  lemma PlainHeadlineIsKept(headline: string, targets: seq<Target>, render: string -> string, example: string)
    requires forall k :: 0 <= k < |targets| ==> Listable(targets[k])
    requires forall k :: !Occurs(headline, SELECT_HINT_LINE, k)
    ensures Respelled(Format(headline, targets), render, example) ==
            headline + "\n" + Instruction(example) + "\n" + Join([OPEN_HEADING] + Commands(targets, render) + [STABLE_ID_NOTE])
  {
    HintRespells(headline, targets, render, example);
    ReplaceNothing(headline, SELECT_HINT_LINE, Instruction(example));
  }

  /** A message that lists nothing is passed through as it is. */
  lemma UnlistedMessageIsKept(message: string, render: string -> string, example: string)
    requires forall k :: !Occurs(message, "\n" + OPEN_HEADING + "\n", k) && !Occurs(message, "\n" + MATCHING_HEADING + "\n", k)
    ensures Respelled(message, render, example) == message
  {
  }

  // ----- the commands the two respellers render -----

  /** `positional_selector`. */
  function PositionalSelector(selector: string): string {
    if selector != "" && selector[0] == '-' then "-- " + Quote(selector) else Quote(selector)
  }

  /** The rendering of `respell_for_positional`. */
  function ForPositional(command: string): string -> string {
    selector => command + " " + PositionalSelector(selector)
  }

  /** The rendering of `respell_for_option`, for a command already joined. */
  function ForOption(command: string): string -> string {
    selector => "bn " + TargetOption(selector) + " " + command
  }

  lemma Dashed(selector: string)
    requires selector != "" && selector[0] == '-'
    ensures PositionalSelector(selector) == "-- " + Quote(selector)
    ensures TargetOption(selector) == "--target=" + Quote(selector)
  {
  }

  lemma Bare(selector: string)
    requires selector == "" || selector[0] != '-'
    ensures PositionalSelector(selector) == Quote(selector) && TargetOption(selector) == "-t " + Quote(selector)
  {
  }

  /** What stands before the selector of a command line; behind a dash it is set off, so that it cannot be read as an
      option. */
  function BeforePositional(command: string, selector: string): string {
    "  " + command + " " + if selector != "" && selector[0] == '-' then "-- " else ""
  }

  function BeforeOption(selector: string): string {
    "  bn " + if selector != "" && selector[0] == '-' then "--target=" else "-t "
  }

  /** After `before`, the line's next shell word is the selector, whole. */
  predicate Selects(line: string, before: string, selector: string) {
    before <= line && FirstToken(line[|before|..]) == Token(Some(selector), |Quote(selector)| + 1)
  }

  lemma SelectsWhen(line: string, before: string, selector: string, rest: string)
    requires line == before + (Quote(selector) + [' '] + rest)
    ensures Selects(line, before, selector)
  {
    assert line[|before|..] == Quote(selector) + [' '] + rest;
    QuoteLexes(selector, ' ', rest);
  }

  /** The lines a respelled hint holds run on the target they name: the shell reads back exactly its selector. */
  lemma PositionalCommandSelects(command: string, row: Row)
    ensures Selects(Command(ForPositional(command), row), BeforePositional(command, row.selector), row.selector)
  {
    var mark := if row.active then "active  " else "";
    var dash := if row.selector != "" && row.selector[0] == '-' then "-- " else "";
    var rest := " # " + mark + row.metadata;
    if dash == "-- " {
      Dashed(row.selector);
    } else {
      Bare(row.selector);
      assert "" + Quote(row.selector) == Quote(row.selector);
    }
    LineInParts("  ", command, " ", dash, Quote(row.selector), mark, row.metadata);
    SelectsWhen(Command(ForPositional(command), row), BeforePositional(command, row.selector), row.selector, rest);
  }

  lemma LineInParts(a: string, b: string, c: string, d: string, q: string, m: string, e: string)
    ensures a + (b + c + (d + q)) + "  # " + m + e == (a + b + c + d) + (q + [' '] + (" # " + m + e))
  {
    assert "  # " == [' '] + " # ";
  }

  lemma OptionCommandSelects(command: string, row: Row)
    ensures Selects(Command(ForOption(command), row), BeforeOption(row.selector), row.selector)
  {
    var mark := if row.active then "active  " else "";
    var option := if row.selector != "" && row.selector[0] == '-' then "--target=" else "-t ";
    var rest := command + "  # " + mark + row.metadata;
    if option == "--target=" {
      Dashed(row.selector);
    } else {
      Bare(row.selector);
    }
    OptionInParts(option, Quote(row.selector), command, mark, row.metadata);
    SelectsWhen(Command(ForOption(command), row), BeforeOption(row.selector), row.selector, rest);
  }

  lemma OptionInParts(o: string, q: string, c: string, m: string, e: string)
    ensures "  " + ("bn " + (o + q) + " " + c) + "  # " + m + e == ("  bn " + o) + (q + [' '] + (c + "  # " + m + e))
  {
    assert "  " + "bn " == "  bn ";
    OptionGlue("  ", "bn ", o, q, " ", c, "  # ", m, e);
  }

  lemma OptionGlue(a: string, b: string, o: string, q: string, s: string, c: string, h: string, m: string, e: string)
    ensures a + (b + (o + q) + s + c) + h + m + e == (a + b + o) + (q + s + (c + h + m + e))
  {
  }
}
