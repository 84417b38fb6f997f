/** What a whole render discloses: renders as programs of reads, captures and boundaries over one recorder. */
module Disclosure {
  import opened Json
  import opened Skew

  /** `Unknown` is the `?` of a stated count; `Note` is the trailing disclosure, naming its fields. */
  datatype Piece = Words(text: string) | Number(count: int) | Unknown | Note(names: set<string>)

  datatype Render =
    | Say(text: string)
    | Read(choke: Choke, source: Value, key: string, shown: string)
    | Stated(source: Value, key: string)   // _stated_count
    | Then(first: Render, second: Render)
    | Scoped(body: Render)                 // _scoped_reads, and the class listing's per-row capture
    | Drained(body: Render)                // disclosure_boundary whose list is dropped
    | Disclosed(body: Render)              // @_discloses
    | Raise

  datatype Outcome = Text(pieces: seq<Piece>) | Raised

  datatype Effect = Effect(outcome: Outcome, seen: Option<seq<string>>)

  function StatedPiece(count: int, key: string, seen: Option<seq<string>>): Piece {
    if seen.Some? && key in seen.value then Unknown else Number(count)
  }

  function Names(seen: Option<seq<string>>): set<string> {
    if seen.None? then {} else set name | name in seen.value
  }

  function NoteFor(seen: Option<seq<string>>): seq<Piece> {
    if Names(seen) == {} then [] else [Note(Names(seen))]
  }

  function Eval(reader: NumberText, p: Render, seen: Option<seq<string>>): (r: Effect)
    ensures seen.Some? ==> r.seen.Some?
    decreases p
  {
    match p
    case Say(text) => Effect(Text([Words(text)]), seen)
    case Read(choke, source, key, shown) =>
      Effect(Text([Words(shown)]), NotedIf(seen, key, Unreadable(reader, choke, source, key)))
    case Stated(source, key) =>
      var after := NotedIf(seen, key, CountSkew(reader, source, key));
      Effect(Text([StatedPiece(CountOf(reader, source, key), key, after)]), after)
    case Then(first, second) =>
      var one := Eval(reader, first, seen);
      if one.outcome.Raised? then one
      else
        var two := Eval(reader, second, one.seen);
        if two.outcome.Raised? then two
        else Effect(Text(one.outcome.pieces + two.outcome.pieces), two.seen)
    case Scoped(body) =>
      var inner := Eval(reader, body, Some([]));
      if inner.outcome.Raised? then Effect(Raised, seen)
      else Effect(inner.outcome, NotedAll(seen, inner.seen.value))
    case Drained(body) =>
      Effect(Eval(reader, body, Some([])).outcome, seen)
    case Disclosed(body) =>
      var inner := Eval(reader, body, Some([]));
      if inner.outcome.Raised? then Effect(Raised, seen)
      else Effect(Text(inner.outcome.pieces + NoteFor(inner.seen)), seen)
    case Raise => Effect(Raised, seen)
  }

  /** An exception that leaves a capture takes what the capture recorded with it: the record outside is what it was. */
  lemma RaiseLeavesTheRecord(reader: NumberText, p: Render, seen: Option<seq<string>>)
    requires (p.Scoped? || p.Drained? || p.Disclosed?) && Eval(reader, p, seen).outcome.Raised?
    ensures Eval(reader, p, seen).seen == seen && Eval(reader, p.body, Some([])).outcome.Raised?
  {
  }

  /** The render as it runs: one shared recorder, swapped by each capture and put back by its
      `finally`, whether the body returned or raised. */
  method Execute(reader: NumberText, p: Render, rec: Recorder) returns (outcome: Outcome)
    modifies rec
    ensures Effect(outcome, rec.seen) == Eval(reader, p, old(rec.seen))
    decreases p
  {
    match p {
      case Say(text) =>
        outcome := Text([Words(text)]);
      case Read(choke, source, key, shown) =>
        if Unreadable(reader, choke, source, key) {
          rec.Record(key);
        }
        outcome := Text([Words(shown)]);
      case Stated(source, key) =>
        var count := rec.CountField(reader, source, key);
        outcome := Text([if rec.Skewed(key) then Unknown else Number(count)]);
      case Then(first, second) =>
        outcome := Execute(reader, first, rec);
        if outcome.Text? {
          var rest := Execute(reader, second, rec);
          outcome := if rest.Raised? then Raised else Text(outcome.pieces + rest.pieces);
        }
      case Scoped(body) =>
        var token := rec.seen;
        rec.seen := Some([]);
        outcome := Execute(reader, body, rec);
        var unreadable := rec.seen.value;
        rec.seen := token;
        if outcome.Text? {
          rec.RecordAll(unreadable);
        }
      case Drained(body) =>
        var token := rec.seen;
        rec.seen := Some([]);
        outcome := Execute(reader, body, rec);
        rec.seen := token;
      case Disclosed(body) =>
        var token := rec.seen;
        rec.seen := Some([]);
        outcome := Execute(reader, body, rec);
        var skewed := rec.seen;
        rec.seen := token;
        if outcome.Text? {
          outcome := Text(outcome.pieces + NoteFor(skewed));
        }
      case Raise =>
        outcome := Raised;
    }
  }

  // ----- completeness: what a boundary names -----

  /** The unreadable keys of the reads that no inner boundary owns. */
  function Refused(reader: NumberText, p: Render): set<string> {
    match p
    case Say(_) => {}
    case Read(choke, source, key, _) => if Unreadable(reader, choke, source, key) then {key} else {}
    case Stated(source, key) => if CountSkew(reader, source, key) then {key} else {}
    case Then(first, second) => Refused(reader, first) + Refused(reader, second)
    case Scoped(body) => Refused(reader, body)
    case Drained(_) => {}
    case Disclosed(_) => {}
    case Raise => {}
  }

  /** A render that returns records exactly what was already recorded plus every key it was refused. */
  lemma {:induction false} RecordsEveryRefusal(reader: NumberText, p: Render, seen: seq<string>)
    requires Eval(reader, p, Some(seen)).outcome.Text?
    ensures Names(Eval(reader, p, Some(seen)).seen) == Names(Some(seen)) + Refused(reader, p)
    decreases p
  {
    match p {
      case Then(first, second) =>
        RecordsEveryRefusal(reader, first, seen);
        RecordsEveryRefusal(reader, second, Eval(reader, first, Some(seen)).seen.value);
      case Scoped(body) =>
        RecordsEveryRefusal(reader, body, []);
        NotedAllNames(seen, Eval(reader, body, Some([])).seen.value);
      case _ =>
    }
  }

  /** The innermost boundary names every key its reads were refused, and no other; whatever is open
      outside it is left alone. */
  lemma BoundaryNamesItsRefusals(reader: NumberText, body: Render, seen: Option<seq<string>>)
    requires Eval(reader, body, Some([])).outcome.Text?
    ensures Eval(reader, Disclosed(body), seen) ==
            Effect(Text(Eval(reader, body, Some([])).outcome.pieces
                        + if Refused(reader, body) == {} then [] else [Note(Refused(reader, body))]), seen)
  {
    RecordsEveryRefusal(reader, body, []);
    assert Names(Some([])) == {};
    assert Names(Eval(reader, body, Some([])).seen) == Refused(reader, body);
  }

  // ----- locality: what a render's text depends on -----

  /** The keys stated as counts outside every capture: the only ones an outer record can reach. */
  function OpenlyStated(p: Render): set<string> {
    match p
    case Stated(_, key) => {key}
    case Then(first, second) => OpenlyStated(first) + OpenlyStated(second)
    case _ => {}
  }

  /** Two runs whose records agree on the openly stated keys print the same text. */
  lemma {:induction false} TextIsLocal(reader: NumberText, p: Render, left: seq<string>, right: seq<string>)
    requires forall key :: key in OpenlyStated(p) ==> (key in left <==> key in right)
    ensures Eval(reader, p, Some(left)).outcome == Eval(reader, p, Some(right)).outcome
    decreases p
  {
    match p {
      case Then(first, second) =>
        TextIsLocal(reader, first, left, right);
        var l, r := Eval(reader, first, Some(left)), Eval(reader, first, Some(right));
        if l.outcome.Text? {
          RecordsEveryRefusal(reader, first, left);
          RecordsEveryRefusal(reader, first, right);
          forall key | key in OpenlyStated(second)
            ensures key in l.seen.value <==> key in r.seen.value
          {
            assert key in Names(l.seen) <==> key in Names(r.seen);
          }
          TextIsLocal(reader, second, l.seen.value, r.seen.value);
        }
      case _ =>
    }
  }

  /** And the condition is exact: a readable count stated openly prints `?` exactly when an outer read, or any read
      the render made before it, refused the same key; in its own capture it always prints its number. */
  lemma OpenStatementLeaks(reader: NumberText, before: Render, source: Value, key: string, seen: seq<string>)
    requires Eval(reader, before, Some(seen)).outcome.Text? && !CountSkew(reader, source, key)
    ensures var printed := Pieces(reader, before, seen);
            && Eval(reader, Then(before, Stated(source, key)), Some(seen)).outcome ==
               Text(printed + [if key in seen || key in Refused(reader, before) then Unknown
                               else Number(CountOf(reader, source, key))])
            && Eval(reader, Then(before, Scoped(Stated(source, key))), Some(seen)).outcome ==
               Text(printed + [Number(CountOf(reader, source, key))])
  {
    var after := SeenAfter(reader, before, seen);
    RecordsEveryRefusal(reader, before, seen);
    assert key in Names(Some(after)) <==> key in Names(Some(seen)) || key in Refused(reader, before);
    var open := if key in after then Unknown else Number(CountOf(reader, source, key));
    BothReturn(reader, before, Stated(source, key), Some(seen), Pieces(reader, before, seen), [open]);
    BothReturn(reader, before, Scoped(Stated(source, key)), Some(seen), Pieces(reader, before, seen),
               [Number(CountOf(reader, source, key))]);
  }

  /** What a render prints, given what was recorded before it. */
  function Pieces(reader: NumberText, p: Render, seen: seq<string>): seq<Piece> {
    var outcome := Eval(reader, p, Some(seen)).outcome;
    if outcome.Text? then outcome.pieces else []
  }

  // ----- parts of a render that keep to their own data -----

  function Line(parts: seq<Render>): Render {
    if parts == [] then Say("") else Then(parts[0], Line(parts[1..]))
  }

  /** A part that always returns and states no count outside a capture. */
  ghost predicate Apart(reader: NumberText, p: Render) {
    OpenlyStated(p) == {} && forall seen: seq<string> :: Eval(reader, p, Some(seen)).outcome.Text?
  }

  function Alone(reader: NumberText, p: Render): seq<Piece> {
    Pieces(reader, p, [])
  }

  function EachAlone(reader: NumberText, parts: seq<Render>): seq<Piece> {
    if parts == [] then [Words("")] else Alone(reader, parts[0]) + EachAlone(reader, parts[1..])
  }

  function RefusedByAll(reader: NumberText, parts: seq<Render>): set<string> {
    if parts == [] then {} else Refused(reader, parts[0]) + RefusedByAll(reader, parts[1..])
  }

  /** Whatever was recorded before, each part prints what it would print alone. */
  lemma {:induction false} PartsAreIndependent(reader: NumberText, parts: seq<Render>, seen: seq<string>)
    requires AllApart(reader, parts)
    ensures Eval(reader, Line(parts), Some(seen)).outcome == Text(EachAlone(reader, parts))
    decreases |parts|
  {
    if parts != [] {
      var p, rest := parts[0], parts[1..];
      RestApart(reader, parts);
      ApartPrints(reader, p, seen);
      var after := SeenAfter(reader, p, seen);
      PartsAreIndependent(reader, rest, after);
      BothReturn(reader, p, Line(rest), Some(seen), Alone(reader, p), EachAlone(reader, rest));
    }
  }

  /** Together, parts are refused exactly what each is. */
  lemma {:induction false} PartsRefused(reader: NumberText, parts: seq<Render>)
    ensures Refused(reader, Line(parts)) == RefusedByAll(reader, parts)
    decreases |parts|
  {
    if parts != [] {
      PartsRefused(reader, parts[1..]);
    }
  }

  function SeenAfter(reader: NumberText, p: Render, seen: seq<string>): (after: seq<string>)
    ensures Eval(reader, p, Some(seen)).seen == Some(after)
  {
    Eval(reader, p, Some(seen)).seen.value
  }

  lemma RestApart(reader: NumberText, parts: seq<Render>)
    requires AllApart(reader, parts) && parts != []
    ensures Apart(reader, parts[0]) && AllApart(reader, parts[1..])
  {
  }

  lemma ApartPrints(reader: NumberText, p: Render, seen: seq<string>)
    requires Apart(reader, p)
    ensures Eval(reader, p, Some(seen)).outcome == Text(Alone(reader, p))
  {
    TextIsLocal(reader, p, seen, []);
  }

  lemma BothReturn(reader: NumberText, first: Render, second: Render, seen: Option<seq<string>>, a: seq<Piece>, b: seq<Piece>)
    requires Eval(reader, first, seen).outcome == Text(a)
    requires Eval(reader, second, Eval(reader, first, seen).seen).outcome == Text(b)
    ensures Eval(reader, Then(first, second), seen).outcome == Text(a + b)
  {
  }

  // ----- arity witnesses -----

  function ShownText(source: Value, key: string): string {
    if TextOf(source, key).Some? then TextOf(source, key).value else ""
  }

  /** `_arity_witness_text`, as the reads it makes. */
  function ArityWitnessText(name: string, verdict: Value): Render {
    var status := TextOf(verdict, "status");
    if AsFields(verdict) == map[] then Say("no verdict")
    else
      Then(Read(AsText, verdict, "status", ShownText(verdict, "status")),
           if status == Some("agreement") || status == Some("contradiction") then
             Then(Stated(verdict, "witness_arity"),
                  Then(Stated(verdict, "declared_arity"),
                       if name == "library" then Read(AsText, verdict, "source", ShownText(verdict, "source"))
                       else if name == "callee_body" then Read(AsText, verdict, "register", ShownText(verdict, "register"))
                       else Say("")))
           else Read(AsText, verdict, "reason", ShownText(verdict, "reason")))
  }

  /** One verdict, in its own capture. */
  function ArityWitness(witnesses: Value, name: string): Render {
    var verdict := Get(witnesses, name);
    Then(Read(AsDict, witnesses, name, name), Scoped(ArityWitnessText(name, verdict)))
  }

  function ArityWitnesses(witnesses: Value, names: seq<string>): seq<Render> {
    if names == [] then [] else [ArityWitness(witnesses, names[0])] + ArityWitnesses(witnesses, names[1..])
  }

  /** Every witness is rendered, in order. */
  lemma {:induction false} EachWitness(witnesses: Value, names: seq<string>)
    ensures |ArityWitnesses(witnesses, names)| == |names|
    ensures forall k :: 0 <= k < |names| ==> ArityWitnesses(witnesses, names)[k] == ArityWitness(witnesses, names[k])
  {
    if names != [] {
      EachWitness(witnesses, names[1..]);
    }
  }

  /** A render with no raise in it returns. */
  predicate Calm(p: Render) {
    match p
    case Then(first, second) => Calm(first) && Calm(second)
    case Scoped(body) => Calm(body)
    case Drained(body) => Calm(body)
    case Disclosed(body) => Calm(body)
    case Raise => false
    case _ => true
  }

  lemma {:induction false} NeverRaises(reader: NumberText, p: Render, seen: Option<seq<string>>)
    requires Calm(p)
    ensures Eval(reader, p, seen).outcome.Text?
    decreases p
  {
    match p {
      case Then(first, second) =>
        NeverRaises(reader, first, seen);
        NeverRaises(reader, second, Eval(reader, first, seen).seen);
      case Scoped(body) => NeverRaises(reader, body, Some([]));
      case Drained(body) => NeverRaises(reader, body, Some([]));
      case Disclosed(body) => NeverRaises(reader, body, Some([]));
      case _ =>
    }
  }

  lemma ApartWhen(reader: NumberText, p: Render)
    requires Calm(p) && OpenlyStated(p) == {}
    ensures Apart(reader, p)
  {
    forall seen: seq<string>
      ensures Eval(reader, p, Some(seen)).outcome.Text?
    {
      NeverRaises(reader, p, Some(seen));
    }
  }

  lemma ArityWitnessIsApart(reader: NumberText, witnesses: Value, name: string)
    ensures Apart(reader, ArityWitness(witnesses, name))
  {
    var text := ArityWitnessText(name, Get(witnesses, name));
    if text.Then? {
      if text.second.Then? {
        assert text.second.second.Then? && Calm(text.second.second.second);
        assert Calm(text.second.second);
      }
      assert Calm(text.first) && Calm(text.second);
    }
    assert Calm(text);
    ScopedIsQuiet(Read(AsDict, witnesses, name, name), text);
    ApartWhen(reader, ArityWitness(witnesses, name));
  }

  lemma ScopedIsQuiet(read: Render, body: Render)
    requires read.Read? && Calm(body)
    ensures OpenlyStated(Then(read, Scoped(body))) == {} && Calm(Then(read, Scoped(body)))
  {
  }

  /** The witness line of a row: each verdict reads only its own fields, wherever in the render it stands. */
  lemma WitnessesAreIndependent(reader: NumberText, witnesses: Value, names: seq<string>, seen: seq<string>)
    ensures Eval(reader, Line(ArityWitnesses(witnesses, names)), Some(seen)).outcome ==
            Text(EachAlone(reader, ArityWitnesses(witnesses, names)))
  {
    WitnessesAreApart(reader, witnesses, names);
    PartsAreIndependent(reader, ArityWitnesses(witnesses, names), seen);
  }

  ghost predicate AllApart(reader: NumberText, parts: seq<Render>) {
    forall k :: 0 <= k < |parts| ==> Apart(reader, parts[k])
  }

  lemma OneMoreApart(reader: NumberText, p: Render, parts: seq<Render>)
    requires Apart(reader, p) && AllApart(reader, parts)
    ensures AllApart(reader, [p] + parts)
  {
  }

  lemma {:induction false} WitnessesAreApart(reader: NumberText, witnesses: Value, names: seq<string>)
    ensures AllApart(reader, ArityWitnesses(witnesses, names))
  {
    if names != [] {
      ArityWitnessIsApart(reader, witnesses, names[0]);
      WitnessesAreApart(reader, witnesses, names[1..]);
      OneMoreApart(reader, ArityWitness(witnesses, names[0]), ArityWitnesses(witnesses, names[1..]));
    }
  }

  // ----- the class listing -----

  /** One row of `_render_class_list_text`: its counts are stated inside the row's own capture. */
  function ClassRow(rec: Value): Render {
    if !rec.Obj? then Say("fallback")
    else
      var bases := ListOf(rec, "bases");
      var counts := Then(Stated(rec, "method_count"),
                         Then(if (exists k :: 0 <= k < |bases| && Truthy(bases[k])) && "base_sole_base_of" in rec.fields
                              then Stated(rec, "base_sole_base_of") else Say(""),
                              SlotCount(rec)));
      Then(Read(AsList, rec, "bases", "bases"), Then(Scoped(counts), Read(AsList, rec, "aliases", "aliases")))
  }

  function SlotCount(rec: Value): Render
    requires rec.Obj?
  {
    if "vtable_slot_count" !in rec.fields then Say("")
    else if rec.fields["vtable_slot_count"].Null?
         && Get(rec, "vtable_status") in {Str("recovered"), Str("budget_exhausted"), Str("unavailable")}
    then Say("?")
    else Stated(rec, "vtable_slot_count")
  }

  function ClassRows(recs: seq<Value>): seq<Render> {
    if recs == [] then [] else [ClassRow(recs[0])] + ClassRows(recs[1..])
  }

  const DECLARED := "declared_suppressed"

  /** The header's count of hidden declarations, printed unless it is a readable zero. */
  function DeclaredSuppressed(reader: NumberText, value: Value): Render {
    if CountOf(reader, value, DECLARED) != 0 || CountSkew(reader, value, DECLARED) then Stated(value, DECLARED)
    else Read(AsCount, value, DECLARED, "")
  }

  /** `_render_class_list_text`: whatever the header reads first, the one count drained on purpose, the rows, and
      whatever the footer reads. */
  function ClassListing(reader: NumberText, header: Render, value: Value, recs: seq<Value>, footer: Render): Render {
    Disclosed(Then(header, Then(Drained(DeclaredSuppressed(reader, value)), Then(Line(ClassRows(recs)), footer))))
  }

  lemma ClassRowIsApart(reader: NumberText, rec: Value)
    ensures Apart(reader, ClassRow(rec))
  {
    if rec.Obj? {
      var row := ClassRow(rec);
      var counts := row.second.first.body;
      assert Calm(counts.second.first) && Calm(counts.second.second);
      assert Calm(counts.second) && Calm(counts);
      assert Calm(row.second.first) && Calm(row.second);
      assert OpenlyStated(row) == OpenlyStated(row.first) + OpenlyStated(row.second);
      assert OpenlyStated(row.second) == OpenlyStated(row.second.first) + OpenlyStated(row.second.second);
    }
    ApartWhen(reader, ClassRow(rec));
  }

  lemma {:induction false} ClassRowsAreApart(reader: NumberText, recs: seq<Value>)
    ensures AllApart(reader, ClassRows(recs))
  {
    if recs != [] {
      ClassRowIsApart(reader, recs[0]);
      ClassRowsAreApart(reader, recs[1..]);
      OneMoreApart(reader, ClassRow(recs[0]), ClassRows(recs[1..]));
    }
  }

  /** Each row prints what it would print alone, in order, whatever header and footer read beside it, and one note
      names every field that the header, the footer or any row was refused. The drained read of
      `declared_suppressed` never joins that note. */
  lemma ClassListingIsLocalAndComplete(reader: NumberText, header: Render, value: Value, recs: seq<Value>,
                                       footer: Render, seen: Option<seq<string>>)
    requires Calm(header) && Calm(footer)
    ensures Eval(reader, ClassListing(reader, header, value, recs, footer), seen) ==
            Bounded(BodyText(reader, header, DeclaredPiece(reader, value), ClassRows(recs), footer),
                    Refused(reader, header) + RefusedByAll(reader, ClassRows(recs)) + Refused(reader, footer), seen)
  {
    ClassRowsAreApart(reader, recs);
    HeaderPrints(reader, value);
    ListingPrints(reader, header, DeclaredSuppressed(reader, value), DeclaredPiece(reader, value), ClassRows(recs), footer, seen);
  }

  /** A boundary around a header, a drained read, parts that keep apart, and a footer. */
  lemma ListingPrints(reader: NumberText, header: Render, drained: Render, piece: Piece, parts: seq<Render>,
                      footer: Render, seen: Option<seq<string>>)
    requires AllApart(reader, parts) && Calm(header) && Calm(footer)
    requires Eval(reader, drained, Some([])).outcome == Text([piece])
    ensures Eval(reader, Disclosed(Then(header, Then(Drained(drained), Then(Line(parts), footer)))), seen) ==
            Bounded(BodyText(reader, header, piece, parts, footer),
                    Refused(reader, header) + RefusedByAll(reader, parts) + Refused(reader, footer), seen)
  {
    var body := Then(header, Then(Drained(drained), Then(Line(parts), footer)));
    BodyPrints(reader, header, drained, piece, parts, footer);
    PartsRefused(reader, parts);
    RefusedInBody(reader, header, drained, parts, footer);
    BoundaryNamesItsRefusals(reader, body, seen);
  }

  lemma RefusedInBody(reader: NumberText, header: Render, drained: Render, parts: seq<Render>, footer: Render)
    ensures Refused(reader, Then(header, Then(Drained(drained), Then(Line(parts), footer)))) ==
            Refused(reader, header) + Refused(reader, Line(parts)) + Refused(reader, footer)
  {
    var tail := Then(Line(parts), footer);
    assert Refused(reader, tail) == Refused(reader, Line(parts)) + Refused(reader, footer);
    assert Refused(reader, Then(Drained(drained), tail)) == {} + Refused(reader, tail);
  }

  /** What a boundary leaves: the text, a note naming what was refused, and the outer record as it was. */
  function Bounded(pieces: seq<Piece>, refused: set<string>, seen: Option<seq<string>>): Effect {
    Effect(Text(pieces + if refused == {} then [] else [Note(refused)]), seen)
  }

  /** Header, drained count, each part as it prints alone, and the footer after what all of them recorded. */
  function BodyText(reader: NumberText, header: Render, piece: Piece, parts: seq<Render>, footer: Render): seq<Piece> {
    Pieces(reader, header, [])
    + ([piece] + (EachAlone(reader, parts)
                  + Pieces(reader, footer, SeenAfter(reader, Line(parts), SeenAfter(reader, header, [])))))
  }

  lemma BodyPrints(reader: NumberText, header: Render, drained: Render, piece: Piece, parts: seq<Render>, footer: Render)
    requires AllApart(reader, parts) && Calm(header) && Calm(footer)
    requires Eval(reader, drained, Some([])).outcome == Text([piece])
    ensures Eval(reader, Then(header, Then(Drained(drained), Then(Line(parts), footer))), Some([])).outcome ==
            Text(BodyText(reader, header, piece, parts, footer))
  {
    NeverRaises(reader, header, Some([]));
    var above, start := Pieces(reader, header, []), SeenAfter(reader, header, []);
    PartsAreIndependent(reader, parts, start);
    var rest := SeenAfter(reader, Line(parts), start);
    NeverRaises(reader, footer, Some(rest));
    var rows, below := EachAlone(reader, parts), Pieces(reader, footer, rest);
    BothReturn(reader, Line(parts), footer, Some(start), rows, below);
    DrainedPrints(reader, drained, piece, start);
    BothReturn(reader, Drained(drained), Then(Line(parts), footer), Some(start), [piece], rows + below);
    BothReturn(reader, header, Then(Drained(drained), Then(Line(parts), footer)), Some([]), above, [piece] + (rows + below));
  }

  lemma DrainedPrints(reader: NumberText, drained: Render, piece: Piece, seen: seq<string>)
    requires Eval(reader, drained, Some([])).outcome == Text([piece])
    ensures Eval(reader, Drained(drained), Some(seen)) == Effect(Text([piece]), Some(seen))
  {
  }

  lemma HeaderPrints(reader: NumberText, value: Value)
    ensures Eval(reader, DeclaredSuppressed(reader, value), Some([])).outcome == Text([DeclaredPiece(reader, value)])
  {
  }

  function DeclaredPiece(reader: NumberText, value: Value): Piece {
    if CountSkew(reader, value, DECLARED) then Unknown
    else if CountOf(reader, value, DECLARED) != 0 then Number(CountOf(reader, value, DECLARED))
    else Words("")
  }

  // ----- what a row states -----

  /** A stated count, read alone. */
  function Count(reader: NumberText, source: Value, key: string): Piece {
    if CountSkew(reader, source, key) then Unknown else Number(CountOf(reader, source, key))
  }

  lemma CountAlone(reader: NumberText, source: Value, key: string, seen: seq<string>)
    requires key !in seen
    ensures Pieces(reader, Stated(source, key), seen) == [Count(reader, source, key)]
    ensures forall other :: other != key ==> (other in SeenAfter(reader, Stated(source, key), seen) <==> other in seen)
  {
  }

  lemma PiecesOfThen(reader: NumberText, first: Render, second: Render, seen: seq<string>)
    requires Calm(first) && Calm(second)
    ensures Pieces(reader, Then(first, second), seen) ==
            Pieces(reader, first, seen) + Pieces(reader, second, SeenAfter(reader, first, seen))
  {
    NeverRaises(reader, first, Some(seen));
    NeverRaises(reader, second, Some(SeenAfter(reader, first, seen)));
  }

  /** Whether the slot count is explained by the row's own status. */
  predicate SlotsExplained(rec: Value) {
    Get(rec, "vtable_slot_count").Null?
    && Get(rec, "vtable_status") in {Str("recovered"), Str("budget_exhausted"), Str("unavailable")}
  }

  predicate HasBases(rec: Value) {
    exists k :: 0 <= k < |ListOf(rec, "bases")| && Truthy(ListOf(rec, "bases")[k])
  }

  /** What a class row states, count by count: its methods always; how many have its base as their only one, if it
      lists a base and the field is there; its slots if the field is there, as `?` when its status explains them. */
  function ClassCounts(reader: NumberText, rec: Value): seq<Piece> {
    [Count(reader, rec, "method_count"),
     if HasBases(rec) && "base_sole_base_of" in AsFields(rec) then Count(reader, rec, "base_sole_base_of") else Words(""),
     if "vtable_slot_count" !in AsFields(rec) then Words("")
     else if SlotsExplained(rec) then Words("?")
     else Count(reader, rec, "vtable_slot_count")]
  }

  lemma ThreeCounts(reader: NumberText, rec: Value, second: Render, third: Render, two: Piece, three: Piece)
    requires (second == Say("") && two == Words(""))
             || (second == Stated(rec, "base_sole_base_of") && two == Count(reader, rec, "base_sole_base_of"))
    requires (exists text :: third == Say(text) && three == Words(text))
             || (third == Stated(rec, "vtable_slot_count") && three == Count(reader, rec, "vtable_slot_count"))
    ensures Pieces(reader, Then(Stated(rec, "method_count"), Then(second, third)), []) ==
            [Count(reader, rec, "method_count"), two, three]
  {
    var first := Stated(rec, "method_count");
    CountAlone(reader, rec, "method_count", []);
    var one := SeenAfter(reader, first, []);
    if second.Stated? {
      CountAlone(reader, rec, "base_sole_base_of", one);
    }
    var both := SeenAfter(reader, second, one);
    if third.Stated? {
      CountAlone(reader, rec, "vtable_slot_count", both);
    }
    PiecesOfThen(reader, first, Then(second, third), []);
    PiecesOfThen(reader, second, third, one);
  }

  /** An object row prints its bases, its counts and its aliases, reading both lists. */
  lemma ClassRowStates(reader: NumberText, rec: Value)
    requires rec.Obj?
    ensures Alone(reader, ClassRow(rec)) == [Words("bases")] + (ClassCounts(reader, rec) + [Words("aliases")])
    ensures (ListSkew(rec, "bases") ==> "bases" in Refused(reader, ClassRow(rec)))
            && (ListSkew(rec, "aliases") ==> "aliases" in Refused(reader, ClassRow(rec)))
  {
    var row := ClassRow(rec);
    var scoped, aliases := row.second.first, row.second.second;
    var counts := scoped.body;
    ThreeCounts(reader, rec, counts.second.first, counts.second.second, ClassCounts(reader, rec)[1], ClassCounts(reader, rec)[2]);
    ScopedCounts(reader, rec, counts, aliases);
    assert Refused(reader, row) == Refused(reader, row.first) + Refused(reader, row.second);
    assert Refused(reader, row.second) == Refused(reader, scoped) + Refused(reader, aliases);
  }

  lemma ScopedCounts(reader: NumberText, rec: Value, counts: Render, aliases: Render)
    requires Calm(counts) && aliases == Read(AsList, rec, "aliases", "aliases")
    ensures Alone(reader, Then(Read(AsList, rec, "bases", "bases"), Then(Scoped(counts), aliases))) ==
            [Words("bases")] + (Pieces(reader, counts, []) + [Words("aliases")])
  {
    var bases := Read(AsList, rec, "bases", "bases");
    var seen := SeenAfter(reader, bases, []);
    NeverRaises(reader, counts, Some([]));
    PiecesOfThen(reader, bases, Then(Scoped(counts), aliases), []);
    PiecesOfThen(reader, Scoped(counts), aliases, seen);
  }

  /** What one arity verdict states: nothing at all if there is none; its status; and beside an agreement or a
      contradiction both arities and who witnessed it, beside anything else the reason. */
  function WitnessPieces(reader: NumberText, name: string, verdict: Value): seq<Piece> {
    var status := TextOf(verdict, "status");
    if AsFields(verdict) == map[] then [Words("no verdict")]
    else if status == Some("agreement") || status == Some("contradiction") then
      [Words(status.value), Count(reader, verdict, "witness_arity"), Count(reader, verdict, "declared_arity"),
       Words(if name == "library" then TextOrNone(verdict, "source")
             else if name == "callee_body" then TextOrNone(verdict, "register") else "")]
    else [Words(TextOrNone(verdict, "status")), Words(TextOrNone(verdict, "reason"))]
  }

  function TextOrNone(source: Value, key: string): string {
    if Get(source, key).Str? then Get(source, key).text else ""
  }

  lemma ArityWitnessStates(reader: NumberText, witnesses: Value, name: string)
    ensures Alone(reader, ArityWitness(witnesses, name)) ==
            [Words(name)] + WitnessPieces(reader, name, Get(witnesses, name))
  {
    var verdict := Get(witnesses, name);
    var text, read := ArityWitnessText(name, verdict), Read(AsDict, witnesses, name, name);
    WitnessTextStates(reader, name, verdict);
    WitnessIsCalm(name, verdict);
    PiecesOfThen(reader, read, Scoped(text), []);
    NeverRaises(reader, text, Some([]));
  }

  /** Which of its fields a verdict can name as unreadable: those it prints, and the verdict itself. */
  lemma WitnessIsRefused(reader: NumberText, witnesses: Value, name: string)
    ensures var verdict := Get(witnesses, name);
            Refused(reader, ArityWitness(witnesses, name)) ==
            (if verdict.Null? || verdict.Obj? then {} else {name}) + WitnessRefusals(reader, name, verdict)
  {
    var text := ArityWitnessText(name, Get(witnesses, name));
    assert Refused(reader, ArityWitness(witnesses, name)) ==
           Refused(reader, Read(AsDict, witnesses, name, name)) + Refused(reader, text);
    if text.Then? {
      assert Refused(reader, text) == Refused(reader, text.first) + Refused(reader, text.second);
      if text.second.Then? {
        var rest := text.second.second;
        assert rest.Then?;
        assert Refused(reader, text.second) == Refused(reader, text.second.first) + Refused(reader, rest);
        assert Refused(reader, rest) == Refused(reader, rest.first) + Refused(reader, rest.second);
      }
    }
  }

  function WitnessRefusals(reader: NumberText, name: string, verdict: Value): set<string> {
    var status := Get(verdict, "status");
    if AsFields(verdict) == map[] then {}
    else if status == Str("agreement") || status == Str("contradiction") then
      (if CountSkew(reader, verdict, "witness_arity") then {"witness_arity"} else {})
      + (if CountSkew(reader, verdict, "declared_arity") then {"declared_arity"} else {})
      + (if name == "library" && TextSkew(verdict, "source") then {"source"} else {})
      + (if name == "callee_body" && TextSkew(verdict, "register") then {"register"} else {})
    else
      (if TextSkew(verdict, "status") then {"status"} else {}) + (if TextSkew(verdict, "reason") then {"reason"} else {})
  }

  lemma WitnessIsCalm(name: string, verdict: Value)
    ensures Calm(ArityWitnessText(name, verdict))
  {
    var text := ArityWitnessText(name, verdict);
    if text.Then? {
      if text.second.Then? {
        assert text.second.second.Then? && Calm(text.second.second.second);
        assert Calm(text.second.second);
      }
      assert Calm(text.first) && Calm(text.second);
    }
  }

  lemma WitnessTextStates(reader: NumberText, name: string, verdict: Value)
    ensures Pieces(reader, ArityWitnessText(name, verdict), []) == WitnessPieces(reader, name, verdict)
  {
    var text, status := ArityWitnessText(name, verdict), TextOf(verdict, "status");
    if text.Then? {
      var seen := SeenAfter(reader, text.first, []);
      WitnessIsCalm(name, verdict);
      PiecesOfThen(reader, text.first, text.second, []);
      if text.second.Then? {
        assert Get(verdict, "status") == Str(status.value) && seen == [];
        TwoCountsAndAWord(reader, verdict, text.second.second.second);
      }
    }
  }

  lemma TwoCountsAndAWord(reader: NumberText, verdict: Value, last: Render)
    requires last.Say? || last.Read?
    ensures Pieces(reader, Then(Stated(verdict, "witness_arity"), Then(Stated(verdict, "declared_arity"), last)), []) ==
            [Count(reader, verdict, "witness_arity"), Count(reader, verdict, "declared_arity"),
             Words(if last.Say? then last.text else last.shown)]
  {
    var one, two := Stated(verdict, "witness_arity"), Stated(verdict, "declared_arity");
    CountAlone(reader, verdict, "witness_arity", []);
    var seen := SeenAfter(reader, one, []);
    assert "declared_arity" !in seen;
    CountAlone(reader, verdict, "declared_arity", seen);
    PiecesOfThen(reader, one, Then(two, last), []);
    PiecesOfThen(reader, two, last, seen);
  }
}
