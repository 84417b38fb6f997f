/** The three deciders over one mutation reply: the exit code, the full-detail `ok`, the compact summary. */
module Mutation {
  import opened Json
  import opened Skew

  // ----- rows -----

  function Failures(rows: seq<Value>): (failed: seq<Value>)
    ensures |failed| <= |rows|
  {
    if rows == [] then []
    else (if FailedStatus(rows[0]) then [rows[0]] else []) + Failures(rows[1..])
  }

  function WithStatus(rows: seq<Value>, status: string): nat {
    if rows == [] then 0
    else (if Get(rows[0], "status") == Str(status) then 1 else 0) + WithStatus(rows[1..], status)
  }

  function Irreversible(rows: seq<Value>): nat {
    if rows == [] then 0
    else (if Get(rows[0], "irreversible_change") == Bool(true) then 1 else 0) + Irreversible(rows[1..])
  }

  predicate StatusesRead(rows: seq<Value>) {
    forall k :: 0 <= k < |rows| ==> !TextSkew(rows[k], "status")
  }

  /** `results[]` and every row's status can be read. */
  predicate Readable(v: Value) {
    !RowsSkew(v, "results") && StatusesRead(RowsOf(v, "results"))
  }

  lemma {:induction false} FailuresSnoc(rows: seq<Value>, row: Value)
    ensures Failures(rows + [row]) == Failures(rows) + if FailedStatus(row) then [row] else []
  {
    if rows == [] {
      assert rows + [row] == [row];
      assert Failures([row][1..]) == [];
    } else {
      assert (rows + [row])[1..] == rows[1..] + [row];
      FailuresSnoc(rows[1..], row);
      var first, last := if FailedStatus(rows[0]) then [rows[0]] else [], if FailedStatus(row) then [row] else [];
      assert Failures(rows + [row]) == first + Failures(rows[1..] + [row]);
      Regroup(first, Failures(rows[1..]), last);
    }
  }

  // ----- the compact status -----

  datatype Compact = Compact(
    ok: bool, measured: bool, opCount: int,
    changed: Option<int>, verified: Option<int>, noop: Option<int>, failed: Option<int>, reverted: Option<int>,
    committed: bool, preview: bool, rolledBack: Option<bool>, dirtyAfter: bool)

  function StatedIf(measured: bool, count: Option<int>): Option<int> {
    if measured then count else None
  }

  /** `_build_mutation_summary`, the one schema both callers feed. */
  function Build(measured: bool, opCount: int, reportedSuccess: bool, failed: int, changed: int,
                 verified: Option<int>, noop: Option<int>, reverted: nat, committed: bool, preview: bool,
                 rolledBack: Value, protoResidue: bool, unusable: bool): Compact {
    var revertFailed := rolledBack == Bool(false) && !committed;
    Compact(
      reportedSuccess && failed == 0 && !unusable,
      measured,
      opCount,
      if revertFailed then None else StatedIf(measured, Some(changed)),
      StatedIf(measured, verified),
      StatedIf(measured, noop),
      StatedIf(measured, Some(failed)),
      if reverted == 0 then None else StatedIf(measured, Some(reverted)),
      committed,
      preview,
      if rolledBack.Null? then None else Some(Truthy(rolledBack)),
      !measured || (committed && changed != 0) || revertFailed || protoResidue)
  }

  /** `_mutation_summary`, given what its capture read. */
  function GenericFrom(v: Value, rows: seq<Value>, failed: seq<Value>, readable: bool): Compact {
    Build(rows != [] && readable, |rows|, FlagOr(v, "success", true), |failed|,
          WithStatus(rows, "verified") + Irreversible(failed), Some(WithStatus(rows, "verified")),
          Some(WithStatus(rows, "noop")), WithStatus(rows, "reverted"),
          FlagOr(v, "committed", false), FlagOr(v, "preview", false),
          Get(v, "rolled_back"), FlagOr(v, "prototype_user_type_residue", false), !readable)
  }

  /** `_mutation_summary`: every count comes from `results[]`. */
  function GenericSummary(v: Value): Compact {
    GenericFrom(v, RowsOf(v, "results"), Failures(RowsOf(v, "results")), Readable(v))
  }

  const CANDIDATES := "go_renamed_candidates"
  const COMMITTED_COUNT := "go_committed_count"
  const VERIFIED_COUNT := "go_verified_count"
  const FAILED_COUNT := "go_failed_count"
  const SKIPPED_USER := "skipped_user_named"
  const SKIPPED_ALREADY := "skipped_already_named"
  const SKIPPED_INTERIOR := "skipped_interior_pc"
  const SKIPPED_CHANGED := "skipped_changed_during_apply"

  const GO_COUNTERS := [
    CANDIDATES, COMMITTED_COUNT, VERIFIED_COUNT, FAILED_COUNT,
    SKIPPED_USER, SKIPPED_ALREADY, SKIPPED_INTERIOR, SKIPPED_CHANGED]

  predicate CountersRead(reader: NumberText, v: Value) {
    forall k :: 0 <= k < |GO_COUNTERS| ==> !CountSkew(reader, v, GO_COUNTERS[k])
  }

  predicate GoReadable(reader: NumberText, v: Value) {
    CountersRead(reader, v) && Readable(v)
  }

  predicate Present(v: Value, key: string) { !Get(v, key).Null? }

  /** Everything `_go_rename_summary` reads off its reply. */
  datatype Tally = Tally(
    candidates: int, landed: int, verified: int, failed: int, skipped: int, underneath: int,
    landedStated: bool, verifiedStated: bool, skippedStated: bool, failureRows: nat, readable: bool,
    success: bool, committed: bool, preview: bool, rolledBack: Value)

  function TallyOf(reader: NumberText, v: Value): Tally {
    Tally(CountOf(reader, v, CANDIDATES), CountOf(reader, v, COMMITTED_COUNT), CountOf(reader, v, VERIFIED_COUNT),
          CountOf(reader, v, FAILED_COUNT), CountOf(reader, v, SKIPPED_USER), CountOf(reader, v, SKIPPED_CHANGED),
          Present(v, COMMITTED_COUNT), Present(v, VERIFIED_COUNT), Present(v, SKIPPED_USER),
          |Failures(RowsOf(v, "results"))|, GoReadable(reader, v),
          FlagOr(v, "success", true), FlagOr(v, "committed", false), FlagOr(v, "preview", false), Get(v, "rolled_back"))
  }

  /** Readable fields, and failure rows that match the failure counter. */
  predicate Agreed(t: Tally) { t.readable && t.failureRows == t.failed }

  /** What `changed` is, and whether the counter it is read from was stated. */
  datatype Rung = Rung(changed: int, stated: bool)

  function GoRung(t: Tally): Rung {
    if t.committed then Rung(t.landed, t.landedStated)
    else if t.preview then Rung(if t.success && t.failed == 0 && Agreed(t) then t.verified else 0, t.verifiedStated)
    else if t.rolledBack == Bool(false) then Rung(0, t.verifiedStated)
    else Rung(0, true)
  }

  function GoFrom(t: Tally): Compact {
    Build(Agreed(t) && GoRung(t).stated, t.candidates + t.skipped - t.underneath, t.success, t.failed,
          GoRung(t).changed, if t.verifiedStated then Some(t.verified) else None,
          if t.skippedStated then Some(t.skipped) else None,
          0, t.committed, t.preview, t.rolledBack, false, !Agreed(t))
  }

  /** `_go_rename_summary`: this op reports through its own counters. */
  function GoSummary(reader: NumberText, v: Value): Compact {
    GoFrom(TallyOf(reader, v))
  }

  datatype Summary = Status(compact: Compact) | AsIs(value: Value)

  predicate IsGoRename(v: Value) { Get(v, "kind") == Str("go_rename") }

  predicate IsSummary(v: Value) { Get(v, "kind") == Str("mutation_summary") }

  /** The compact transform a command brings: every command `_mutation_summary`, `go rename` its own. The reply's
      `kind` has no say in which. */
  datatype Transform = Ordinary | OwnCounters

  /** Whether the summary measures through the `go_*` counters. */
  predicate Counts(t: Transform, v: Value) { t == OwnCounters && IsGoRename(v) }

  /** The transform applied. `_go_rename_summary` hands any other kind on to `_mutation_summary`, which hands a
      non-object and its own output back untouched. */
  function Summarize(reader: NumberText, t: Transform, v: Value): Summary {
    if !v.Obj? then AsIs(v)
    else if Counts(t, v) then Status(GoSummary(reader, v))
    else if IsSummary(v) then AsIs(v)
    else Status(GenericSummary(v))
  }

  /** The fields whose unreadable shape withholds the verdict. */
  function Withholding(reader: NumberText, t: Transform, v: Value): set<string> {
    (if RowsSkew(v, "results") then {"results"} else {})
    + (if StatusesRead(RowsOf(v, "results")) then {} else {"status"})
    + (if Counts(t, v) then set k | 0 <= k < |GO_COUNTERS| && CountSkew(reader, v, GO_COUNTERS[k]) :: GO_COUNTERS[k]
       else {})
  }

  // ----- the summaries as they run, over the recorder -----

  /** Classify every row's status inside the open capture. */
  method ClassifyRows(rows: seq<Value>, rec: Recorder) returns (failed: seq<Value>)
    modifies rec
    ensures failed == Failures(rows)
    ensures rec.seen == NotedIf(old(rec.seen), "status", !StatusesRead(rows))
  {
    failed := [];
    for i := 0 to |rows|
      invariant failed == Failures(rows[..i])
      invariant rec.seen == NotedIf(old(rec.seen), "status", !StatusesRead(rows[..i]))
    {
      assert rows[..i + 1] == rows[..i] + [rows[i]];
      FailuresSnoc(rows[..i], rows[i]);
      assert StatusesRead(rows[..i + 1]) <==> StatusesRead(rows[..i]) && !TextSkew(rows[i], "status") by {
        assert rows[..i + 1][i] == rows[i];
        assert forall k :: 0 <= k < i ==> rows[..i + 1][k] == rows[..i][k];
      }
      var f := rec.IsFailedStatus(rows[i]);
      if f {
        failed := failed + [rows[i]];
      }
    }
    assert rows[..|rows|] == rows;
  }

  /** Read every counter into one table, inside the open capture. */
  method ReadCounters(reader: NumberText, v: Value, rec: Recorder) returns (counters: map<string, int>)
    requires rec.seen == Some([])
    modifies rec
    ensures counters.Keys == set k | 0 <= k < |GO_COUNTERS| :: GO_COUNTERS[k]
    ensures forall key :: key in counters ==> counters[key] == CountOf(reader, v, key)
    ensures rec.seen.Some?
    ensures forall name :: name in rec.seen.value <==> SkewedCounter(reader, v, name, |GO_COUNTERS|)
  {
    counters := map[];
    for i := 0 to |GO_COUNTERS|
      invariant counters.Keys == set k | 0 <= k < i :: GO_COUNTERS[k]
      invariant forall key :: key in counters ==> counters[key] == CountOf(reader, v, key)
      invariant rec.seen.Some?
      invariant forall name :: name in rec.seen.value <==> SkewedCounter(reader, v, name, i)
    {
      var count := rec.CountField(reader, v, GO_COUNTERS[i]);
      counters := counters[GO_COUNTERS[i] := count];
    }
  }

  predicate SkewedCounter(reader: NumberText, v: Value, name: string, n: nat) {
    exists k :: 0 <= k < n && k < |GO_COUNTERS| && GO_COUNTERS[k] == name && CountSkew(reader, v, name)
  }

  lemma CounterNames(counters: map<string, int>)
    requires counters.Keys == set k | 0 <= k < |GO_COUNTERS| :: GO_COUNTERS[k]
    ensures CANDIDATES in counters && COMMITTED_COUNT in counters && VERIFIED_COUNT in counters
    ensures FAILED_COUNT in counters && SKIPPED_USER in counters && SKIPPED_CHANGED in counters
  {
    assert forall k :: 0 <= k < |GO_COUNTERS| ==> GO_COUNTERS[k] in counters;
    assert GO_COUNTERS[0] in counters && GO_COUNTERS[1] in counters && GO_COUNTERS[2] in counters;
    assert GO_COUNTERS[3] in counters && GO_COUNTERS[4] in counters && GO_COUNTERS[7] in counters;
  }

  /** The ladder of `_go_rename_summary` once the capture is closed. */
  method ClimbLadder(t: Tally) returns (changed: int, stated: bool)
    ensures Rung(changed, stated) == GoRung(t)
  {
    var contradict := t.failureRows != t.failed;
    changed, stated := 0, true;
    if t.committed {
      changed, stated := t.landed, t.landedStated;
    } else if t.preview {
      changed := if t.success && t.failed == 0 && t.readable && !contradict then t.verified else 0;
      stated := t.verifiedStated;
    } else if t.rolledBack == Bool(false) {
      stated := t.verifiedStated;
    }
  }

  method BuildGo(t: Tally) returns (out: Compact)
    ensures out == GoFrom(t)
  {
    var changed, stated := ClimbLadder(t);
    var agreed := t.readable && t.failureRows == t.failed;
    out := Build(
      agreed && stated, t.candidates + t.skipped - t.underneath, t.success, t.failed, changed,
      if t.verifiedStated then Some(t.verified) else None, if t.skippedStated then Some(t.skipped) else None,
      0, t.committed, t.preview, t.rolledBack, false, !agreed);
  }

  /** The nested capture both summaries take: the rows, their statuses, and what was refused. */
  method CaptureRows(v: Value, rec: Recorder) returns (rows: seq<Value>, failed: seq<Value>)
    requires rec.seen.Some?
    modifies rec
    ensures rows == RowsOf(v, "results") && failed == Failures(rows)
    ensures rec.seen == NotedIf(NotedIf(old(rec.seen), "results", RowsSkew(v, "results")), "status", !StatusesRead(rows))
  {
    rows := rec.RowList(v, "results");
    failed := ClassifyRows(rows, rec);
  }

  /** The capture of `_mutation_summary`: what it finds unreadable is noted again outside it. */
  method CaptureGeneric(v: Value, rec: Recorder) returns (rows: seq<Value>, failed: seq<Value>, readable: bool)
    modifies rec
    ensures rows == RowsOf(v, "results") && failed == Failures(rows) && readable == Readable(v)
    ensures rec.seen == NotedIf(NotedIf(old(rec.seen), "results", RowsSkew(v, "results")),
                                "status", !StatusesRead(RowsOf(v, "results")))
  {
    var token := rec.seen;
    rec.seen := Some([]);
    rows, failed := CaptureRows(v, rec);
    var unreadable := rec.seen.value;
    rec.seen := token;
    rec.RecordAll(unreadable);
    RecordedTwice(token, RowsSkew(v, "results"), !StatusesRead(rows));
    readable := unreadable == [];
  }

  /** `_mutation_summary` on a reply it counts rows of. `later` are the reads it makes once the capture is closed:
      messages, imports, overlaps and whatever else only carries the reply's own values along. */
  method RunGeneric(reader: NumberText, v: Value, later: seq<Look>, rec: Recorder) returns (out: Compact)
    modifies rec
    ensures out == GenericSummary(v)
    ensures rec.seen == NotedAll(NotedIf(NotedIf(old(rec.seen), "results", RowsSkew(v, "results")),
                                         "status", !StatusesRead(RowsOf(v, "results"))), RefusedKeys(reader, later))
  {
    var rows, failed, readable := CaptureGeneric(v, rec);
    rec.ReadEach(reader, later);
    out := BuildGeneric(v, rows, failed, readable);
  }

  method BuildGeneric(v: Value, rows: seq<Value>, failed: seq<Value>, readable: bool) returns (out: Compact)
    ensures out == GenericFrom(v, rows, failed, readable)
  {
    var verified, noop := WithStatus(rows, "verified"), WithStatus(rows, "noop");
    var changed := verified + Irreversible(failed);
    out := Build(
      rows != [] && readable, |rows|, FlagOr(v, "success", true), |failed|, changed, Some(verified), Some(noop),
      WithStatus(rows, "reverted"), FlagOr(v, "committed", false), FlagOr(v, "preview", false),
      Get(v, "rolled_back"), FlagOr(v, "prototype_user_type_residue", false), !readable);
  }

  lemma RecordedTwice(seen: Option<seq<string>>, results: bool, status: bool)
    ensures var inner := NotedIf(NotedIf(Some([]), "results", results), "status", status);
            NotedAll(seen, inner.value) == NotedIf(NotedIf(seen, "results", results), "status", status)
  {
    var first := if results then ["results"] else [];
    NotedAllSnoc(seen, [], "results");
    NotedAllSnoc(seen, first, "status");
    assert [] + ["results"] == ["results"];
  }

  /** The capture of `_go_rename_summary`: the counters, then the rows. */
  method CaptureGo(reader: NumberText, v: Value, rec: Recorder)
    returns (counters: map<string, int>, failed: seq<Value>, readable: bool)
    requires IsGoRename(v) && rec.seen == Some([])
    modifies rec
    ensures counters.Keys == set k | 0 <= k < |GO_COUNTERS| :: GO_COUNTERS[k]
    ensures forall key :: key in counters ==> counters[key] == CountOf(reader, v, key)
    ensures failed == Failures(RowsOf(v, "results")) && readable == GoReadable(reader, v)
    ensures rec.seen.Some? && Names(rec.seen.value) == Withholding(reader, OwnCounters, v)
  {
    var token := rec.seen;
    rec.seen := Some([]);
    counters := ReadCounters(reader, v, rec);
    ghost var noted := rec.seen.value;
    var rows;
    rows, failed := CaptureRows(v, rec);
    var unreadable := rec.seen.value;
    NamesRead(reader, v, noted, unreadable);
    rec.seen := token;
    rec.RecordAll(unreadable);
    NotedAllNames([], unreadable);
    readable := unreadable == [];
  }

  /** `_go_rename_summary` on its own reply, with the reads it makes once the capture is closed. */
  method RunGo(reader: NumberText, v: Value, later: seq<Look>, rec: Recorder) returns (out: Compact)
    requires IsGoRename(v) && rec.seen == Some([])
    modifies rec
    ensures out == GoSummary(reader, v)
    ensures rec.seen.Some?
    ensures Names(rec.seen.value) == Withholding(reader, OwnCounters, v) + Names(RefusedKeys(reader, later))
  {
    var counters, failed, readable := CaptureGo(reader, v, rec);
    NotedAllNames(rec.seen.value, RefusedKeys(reader, later));
    rec.ReadEach(reader, later);
    var tally := TallyCounters(reader, v, counters, |failed|, readable);
    out := BuildGo(tally);
  }

  method TallyCounters(reader: NumberText, v: Value, counters: map<string, int>, failureRows: nat, readable: bool)
    returns (tally: Tally)
    requires counters.Keys == set k | 0 <= k < |GO_COUNTERS| :: GO_COUNTERS[k]
    requires forall key :: key in counters ==> counters[key] == CountOf(reader, v, key)
    ensures tally == TallyOf(reader, v).(failureRows := failureRows, readable := readable)
  {
    CounterNames(counters);
    tally := Tally(
      counters[CANDIDATES], counters[COMMITTED_COUNT], counters[VERIFIED_COUNT], counters[FAILED_COUNT],
      counters[SKIPPED_USER], counters[SKIPPED_CHANGED],
      Present(v, COMMITTED_COUNT), Present(v, VERIFIED_COUNT), Present(v, SKIPPED_USER), failureRows, readable,
      FlagOr(v, "success", true), FlagOr(v, "committed", false), FlagOr(v, "preview", false), Get(v, "rolled_back"));
  }

  function Names(names: seq<string>): set<string> {
    set name | name in names
  }

  /** Either transform under `_discloses_in_summary`, with the reads it makes once its capture is closed. The
      summary does not depend on those; the names disclosed are the fields whose shape withheld the verdict and
      exactly the keys those reads were refused, and the outer record is put back. */
  method RunSummary(reader: NumberText, t: Transform, v: Value, later: seq<Look>, rec: Recorder)
    returns (out: Summary, disclosed: seq<string>)
    modifies rec
    ensures out == Summarize(reader, t, v)
    ensures rec.seen == old(rec.seen)
    ensures out.Status? ==> Names(disclosed) == Withholding(reader, t, v) + Names(RefusedKeys(reader, later))
    ensures out.AsIs? ==> disclosed == []
  {
    var token := rec.seen;
    rec.seen := Some([]);
    if Counts(t, v) {
      var compact := RunGo(reader, v, later, rec);
      out := Status(compact);
    } else if !v.Obj? || IsSummary(v) {
      out := AsIs(v);
    } else {
      var compact := RunGeneric(reader, v, later, rec);
      NotedInOrder(reader, t, v, RefusedKeys(reader, later));
      out := Status(compact);
    }
    disclosed := rec.seen.value;
    rec.seen := token;
  }

  lemma NotedInOrder(reader: NumberText, t: Transform, v: Value, keys: seq<string>)
    requires !Counts(t, v)
    ensures var first := NotedIf(NotedIf(Some([]), "results", RowsSkew(v, "results")),
                                 "status", !StatusesRead(RowsOf(v, "results")));
            && first.Some? && Names(NotedAll(first, keys).value) == Withholding(reader, t, v) + Names(keys)
  {
    var first := NotedIf(NotedIf(Some([]), "results", RowsSkew(v, "results")),
                         "status", !StatusesRead(RowsOf(v, "results")));
    assert Names(first.value) == Withholding(reader, t, v);
    NotedAllNames(first.value, keys);
  }

  /** What the capture holds after the counters, the row list and the statuses were read. */
  lemma NamesRead(reader: NumberText, v: Value, noted: seq<string>, unreadable: seq<string>)
    requires IsGoRename(v)
    requires forall name :: name in noted <==> SkewedCounter(reader, v, name, |GO_COUNTERS|)
    requires Some(unreadable) == NotedIf(NotedIf(Some(noted), "results", RowsSkew(v, "results")),
                                         "status", !StatusesRead(RowsOf(v, "results")))
    ensures Names(unreadable) == Withholding(reader, OwnCounters, v)
    ensures unreadable == [] <==> GoReadable(reader, v)
  {
    if !CountersRead(reader, v) {
      var k :| 0 <= k < |GO_COUNTERS| && CountSkew(reader, v, GO_COUNTERS[k]);
      assert SkewedCounter(reader, v, GO_COUNTERS[k], |GO_COUNTERS|);
      assert GO_COUNTERS[k] in noted;
    }
    if noted != [] {
      assert noted[0] in noted;
    }
  }

  /** `{"ok": ok, **fields}`: an `ok` among the fields wins. */
  function Prefixed(ok: bool, fields: map<string, Value>): Value {
    Obj(map["ok" := Bool(ok)] + fields)
  }

  /** The bridge reported success, and no row failed or went unread. */
  predicate DetailOk(v: Value) {
    FlagOr(v, "success", true) && Failures(RowsOf(v, "results")) == [] && Readable(v)
  }

  /** `_add_mutation_ok`: the full-detail `ok`. */
  function WithOk(reader: NumberText, v: Value): Value {
    if !v.Obj? then v
    else if IsGoRename(v) then
      var rest := v.fields - {"ok"};
      Prefixed(GoSummary(reader, Obj(rest - {"kept_library_imports"})).ok, rest)
    else if "ok" in v.fields then v
    else
      Prefixed(DetailOk(v), v.fields)
  }

  /** `any(...)` over the rows: it stops at the first failed one. */
  method AnyFailed(rows: seq<Value>, rec: Recorder) returns (failed: bool)
    requires rec.seen.Some?
    modifies rec
    ensures rec.seen.Some?
    ensures failed <==> Failures(rows) != []
    ensures !failed ==> rec.seen == NotedIf(old(rec.seen), "status", !StatusesRead(rows))
  {
    failed := false;
    var i := 0;
    while i < |rows| && !failed
      invariant 0 <= i <= |rows|
      invariant failed <==> Failures(rows[..i]) != []
      invariant rec.seen == NotedIf(old(rec.seen), "status", !StatusesRead(rows[..i]))
    {
      assert rows[..i + 1] == rows[..i] + [rows[i]];
      FailuresSnoc(rows[..i], rows[i]);
      assert StatusesRead(rows[..i + 1]) <==> StatusesRead(rows[..i]) && !TextSkew(rows[i], "status") by {
        assert rows[..i + 1][i] == rows[i];
        assert forall k :: 0 <= k < i ==> rows[..i + 1][k] == rows[..i][k];
      }
      failed := rec.IsFailedStatus(rows[i]);
      i := i + 1;
    }
    if failed {
      FailuresPrefix(rows, i);
    } else {
      assert rows[..i] == rows;
    }
  }

  /** The same as it runs. The scan for a failed row stops at the first one, so a later unreadable
      status is never recorded; the answer is the same. */
  method AddMutationOk(reader: NumberText, v: Value, later: seq<Look>, rec: Recorder) returns (out: Value)
    modifies rec
    ensures out == WithOk(reader, v)
    ensures rec.seen == old(rec.seen)
  {
    if !v.Obj? {
      return v;
    }
    if IsGoRename(v) {
      var rest := v.fields - {"ok"};
      var decided := Obj(rest - {"kept_library_imports"});
      assert Get(decided, "kind") == Get(v, "kind");
      var summary, _ := RunSummary(reader, OwnCounters, decided, later, rec);
      return Prefixed(summary.compact.ok, rest);
    }
    if "ok" in v.fields {
      return v;
    }
    var token := rec.seen;
    rec.seen := Some([]);
    var rows := rec.RowList(v, "results");
    var failed := AnyFailed(rows, rec);
    var unusable := rec.seen.value != [];
    rec.seen := token;
    out := Prefixed(FlagOr(v, "success", true) && !failed && !unusable, v.fields);
  }

  lemma {:induction false} FailuresPrefix(rows: seq<Value>, n: nat)
    requires n <= |rows|
    ensures Failures(rows) == Failures(rows[..n]) + Failures(rows[n..])
    decreases n
  {
    if n == 0 {
      assert rows[..0] == [] && rows[0..] == rows;
    } else {
      FailuresPrefix(rows[1..], n - 1);
      assert rows[..n][1..] == rows[1..][..n - 1];
      assert rows[n..] == rows[1..][n - 1..];
      var first := if FailedStatus(rows[0]) then [rows[0]] else [];
      assert Failures(rows[..n]) == first + Failures(rows[1..][..n - 1]);
      Regroup(first, Failures(rows[1..][..n - 1]), Failures(rows[n..]));
    }
  }

  // ----- the exit code -----

  datatype Scan = Clean | Failure | Malformed

  /** The loop of `_mutation_reports_failure`: a row that is no object, or whose status cannot be
      hashed, raises; the first failure status answers. */
  function ScanRows(items: seq<Value>): Scan {
    if items == [] then Clean
    else if !items[0].Obj? then Malformed
    else
      var status := Get(items[0], "status");
      if status.Arr? || status.Obj? then Malformed
      else if status.Str? && status.text in FAILED_STATUSES then Failure
      else ScanRows(items[1..])
  }

  function ReportsFailure(v: Value): Scan {
    var rows := Get(v, "results");
    if !rows.Null? && !rows.Arr? then Malformed
    else
      var scan := ScanRows(ListOf(v, "results"));
      if scan != Clean then scan
      else if Get(v, "success") == Bool(false) then Failure
      else Clean
  }

  /** The process exit code, or the refusal that leaves as exit 2. */
  datatype Exit = Code(code: nat) | Refused

  function ExitCode(reader: NumberText, t: Transform, v: Value): Exit {
    if !v.Obj? then Refused
    else match ReportsFailure(v)
      case Malformed => Refused
      case Failure => Code(3)
      case Clean =>
        match Summarize(reader, t, v)
        case Status(compact) => if compact.measured then Code(0) else Code(4)
        case AsIs(value) =>
          var measured := Get(value, "measured");
          if !measured.Bool? then Refused else if measured.flag then Code(0) else Code(4)
  }

  /** The scan and the row choke point read the same list. */
  lemma {:induction false} ScanAgrees(items: seq<Value>)
    ensures AllObjects(items) && StatusesRead(Objects(items)) ==>
              ScanRows(items) == if Failures(Objects(items)) == [] then Clean else Failure
    ensures ScanRows(items) == Failure ==> Failures(Objects(items)) != []
    ensures ScanRows(items) == Malformed ==> !AllObjects(items) || !StatusesRead(Objects(items))
  {
    if items != [] {
      ScanAgrees(items[1..]);
      var rest := Objects(items[1..]);
      assert items[1..] == items[1..][..];
      assert AllObjects(items) ==> items[0].Obj? && AllObjects(items[1..]) by {
        assert forall k :: 0 <= k < |items| - 1 ==> items[1..][k] == items[k + 1];
      }
      if items[0].Obj? {
        assert Objects(items)[0] == items[0] && Objects(items)[1..] == rest;
        assert StatusesRead(Objects(items)) ==> !TextSkew(items[0], "status") && StatusesRead(rest) by {
          assert forall k :: 0 <= k < |rest| ==> rest[k] == Objects(items)[k + 1];
        }
        assert Failures(Objects(items)) == (if FailedStatus(items[0]) then [items[0]] else []) + Failures(rest);
      }
    }
  }

  /** The condition under which `success` reads the same to a truth test and to `is False`. */
  predicate SuccessReadsAlike(v: Value) {
    "success" !in AsFields(v) || Truthy(v.fields["success"]) || v.fields["success"] == Bool(false)
  }

  /** Under either transform the exit code and the compact status give one verdict on every object reply: confirmed,
      failed, unmeasured and unclassifiable each mean what they say. */
  lemma VerdictsAgree(reader: NumberText, t: Transform, v: Value)
    requires v.Obj? && !IsSummary(v) && SuccessReadsAlike(v)
    ensures Summarize(reader, t, v).Status?
    ensures var compact, exit := Summarize(reader, t, v).compact, ExitCode(reader, t, v);
            && (exit == Code(0) <==> compact.ok && compact.measured)
            && (exit == Code(3) ==> !compact.ok)
            && (exit == Code(4) ==> !compact.measured)
            && (exit == Refused ==> !compact.ok && !compact.measured)
            && exit in {Code(0), Code(3), Code(4), Refused}
  {
    ScanAgrees(ListOf(v, "results"));
    ObjectsOfRows(ListOf(v, "results"));
  }

  /** A reply calling itself `go_rename` that answers an ordinary command: its rows read clean, but a counter it
      should not have cannot be read or counts a failure. */
  predicate CountersObject(reader: NumberText, t: Transform, v: Value) {
    && t == Ordinary && IsGoRename(v) && DetailOk(v)
    && (!CountersRead(reader, v) || CountOf(reader, v, FAILED_COUNT) != 0)
  }

  /** The full-detail `ok`, which goes by the reply's kind, is the compact `ok`, which goes by the command, exactly
      unless such counters object. Every other field is kept. An `ok` the reply already carries survives only off
      `go_rename`. */
  lemma DetailAndCompactAgree(reader: NumberText, t: Transform, v: Value)
    requires v.Obj? && !IsSummary(v) && (IsGoRename(v) || "ok" !in v.fields)
    ensures Summarize(reader, t, v).Status?
    ensures WithOk(reader, v).Obj?
    ensures Get(WithOk(reader, v), "ok") == Bool(Summarize(reader, t, v).compact.ok) <==> !CountersObject(reader, t, v)
    ensures WithOk(reader, v).fields - {"ok"} == v.fields - {"ok"}
  {
    GenericOkIsDetailOk(v);
    if IsGoRename(v) {
      var rest := v.fields - {"ok"};
      TallyIgnoresOk(reader, v, Obj(rest - {"kept_library_imports"}));
      PrefixedOk(GoSummary(reader, v).ok, rest);
      GoOkIsStricter(reader, v);
    } else {
      PrefixedOk(DetailOk(v), v.fields);
    }
  }

  /** The counters can only take `ok` away. */
  lemma GoOkIsStricter(reader: NumberText, v: Value)
    ensures GoSummary(reader, v).ok <==>
            DetailOk(v) && CountersRead(reader, v) && CountOf(reader, v, FAILED_COUNT) == 0
  {
  }

  /** A failure counter beside a verified row, under the name `go_rename`, answering an ordinary command: the compact
      status confirms it, the full detail does not. */
  lemma OrdinaryCommandAnsweredAsGoRename(reader: NumberText)
    ensures var row := Obj(map["status" := Str("verified")]);
            var v := Obj(map["kind" := Str("go_rename"), "results" := Arr([row]), FAILED_COUNT := Int(1)]);
            && Summarize(reader, Ordinary, v).Status?
            && Summarize(reader, Ordinary, v).compact.ok && Summarize(reader, Ordinary, v).compact.measured
            && Get(WithOk(reader, v), "ok") == Bool(false)
  {
    var row := Obj(map["status" := Str("verified")]);
    var v := Obj(map["kind" := Str("go_rename"), "results" := Arr([row]), FAILED_COUNT := Int(1)]);
    assert "success" !in v.fields && Get(v, FAILED_COUNT) == Int(1) && Get(v, "results") == Arr([row]);
    AnsweredAsGoRename(reader, v, row);
  }

  lemma AnsweredAsGoRename(reader: NumberText, v: Value, row: Value)
    requires v.Obj? && IsGoRename(v) && "success" !in v.fields && Get(v, FAILED_COUNT) == Int(1)
    requires row == Obj(map["status" := Str("verified")]) && Get(v, "results") == Arr([row])
    ensures Summarize(reader, Ordinary, v).Status?
    ensures Summarize(reader, Ordinary, v).compact.ok && Summarize(reader, Ordinary, v).compact.measured
    ensures Get(WithOk(reader, v), "ok") == Bool(false)
  {
    ConfirmedByItsRow(v, row);
    assert CountOf(reader, v, FAILED_COUNT) == 1;
    DetailAndCompactAgree(reader, Ordinary, v);
    OkIsABool(reader, v);
  }

  lemma ConfirmedByItsRow(v: Value, row: Value)
    requires v.Obj? && "success" !in v.fields
    requires row == Obj(map["status" := Str("verified")]) && Get(v, "results") == Arr([row])
    ensures DetailOk(v) && GenericSummary(v).ok && GenericSummary(v).measured
  {
    OneVerifiedRow(v, row);
    GenericOkIsDetailOk(v);
    MeasuredByItsRows(v);
  }

  lemma MeasuredByItsRows(v: Value)
    requires RowsOf(v, "results") != [] && Readable(v)
    ensures GenericSummary(v).measured
  {
  }

  lemma OkIsABool(reader: NumberText, v: Value)
    requires v.Obj? && IsGoRename(v)
    ensures Get(WithOk(reader, v), "ok").Bool?
  {
    PrefixedOk(GoSummary(reader, Obj(v.fields - {"ok"} - {"kept_library_imports"})).ok, v.fields - {"ok"});
  }

  lemma OneVerifiedRow(v: Value, row: Value)
    requires row == Obj(map["status" := Str("verified")]) && Get(v, "results") == Arr([row])
    ensures RowsOf(v, "results") == [row] && Failures([row]) == [] && Readable(v) && ScanRows([row]) == Clean
  {
    assert "verified" !in FAILED_STATUSES;
    assert ListOf(v, "results") == [row];
    assert Objects([row]) == [row] + Objects([row][1..]);
    assert Failures([row]) == Failures([row][1..]);
    assert ScanRows([row]) == ScanRows([row][1..]);
  }

  lemma PrefixedOk(ok: bool, fields: map<string, Value>)
    requires "ok" !in fields
    ensures Get(Prefixed(ok, fields), "ok") == Bool(ok)
    ensures Prefixed(ok, fields).fields - {"ok"} == fields
  {
  }

  lemma GenericOkIsDetailOk(v: Value)
    ensures GenericSummary(v).ok == DetailOk(v)
  {
  }

  lemma TallyIgnoresOk(reader: NumberText, v: Value, w: Value)
    requires v.Obj? && w == Obj(v.fields - {"ok"} - {"kept_library_imports"})
    ensures TallyOf(reader, w) == TallyOf(reader, v)
  {
    assert forall key :: key != "ok" && key != "kept_library_imports" ==>
        Get(w, key) == Get(v, key) && (key in w.fields <==> key in v.fields);
    SameTally(reader, v, w);
  }

  lemma SameTally(reader: NumberText, v: Value, w: Value)
    requires v.Obj? && w.Obj? && SameBut(v, w)
    ensures TallyOf(reader, w) == TallyOf(reader, v)
  {
    SameRows(v, w);
    SameCounters(reader, v, w);
    assert FlagOr(w, "success", true) == FlagOr(v, "success", true);
    assert FlagOr(w, "committed", false) == FlagOr(v, "committed", false);
    assert FlagOr(w, "preview", false) == FlagOr(v, "preview", false);
  }

  ghost predicate SameBut(v: Value, w: Value)
    requires v.Obj? && w.Obj?
  {
    forall key :: key != "ok" && key != "kept_library_imports" ==>
      Get(w, key) == Get(v, key) && (key in w.fields <==> key in v.fields)
  }

  lemma SameRows(v: Value, w: Value)
    requires v.Obj? && w.Obj? && SameBut(v, w)
    ensures RowsOf(w, "results") == RowsOf(v, "results") && Readable(w) == Readable(v)
  {
    assert Get(w, "results") == Get(v, "results");
  }

  lemma SameCounters(reader: NumberText, v: Value, w: Value)
    requires v.Obj? && w.Obj? && SameBut(v, w)
    ensures forall k :: 0 <= k < |GO_COUNTERS| ==>
              && Get(w, GO_COUNTERS[k]) == Get(v, GO_COUNTERS[k])
              && CountOf(reader, w, GO_COUNTERS[k]) == CountOf(reader, v, GO_COUNTERS[k])
    ensures CountersRead(reader, w) == CountersRead(reader, v)
  {
  }

  /** Only a falsy `success` that is not `false` separates the two readings: for a given `success` every
      reply is judged alike exactly when that value is absent, truthy or `false`. */
  lemma SuccessShapeDecides(reader: NumberText, t: Transform, success: Option<Value>)
    ensures (forall v: Value :: v.Obj? && !IsSummary(v) && Carries(v, success) ==>
               Summarize(reader, t, v).Status?
               && (ExitCode(reader, t, v) == Code(0) <==>
                   Summarize(reader, t, v).compact.ok && Summarize(reader, t, v).compact.measured))
            <==> success.None? || Truthy(success.value) || success.value == Bool(false)
  {
    if success.None? || Truthy(success.value) || success.value == Bool(false) {
      forall v: Value | v.Obj? && !IsSummary(v) && Carries(v, success)
        ensures Summarize(reader, t, v).Status?
                && (ExitCode(reader, t, v) == Code(0) <==>
                    Summarize(reader, t, v).compact.ok && Summarize(reader, t, v).compact.measured)
      {
        VerdictsAgree(reader, t, v);
      }
    } else {
      var row := Obj(map["status" := Str("verified")]);
      var v := Obj(map["success" := success.value, "results" := Arr([row])]);
      assert Carries(v, success) && "kind" !in v.fields && Get(v, "results") == Arr([row]);
      FalsySuccessDivides(reader, t, v, row);
    }
  }

  lemma FalsySuccessDivides(reader: NumberText, t: Transform, v: Value, row: Value)
    requires v.Obj? && "kind" !in v.fields && "success" in v.fields
    requires !Truthy(v.fields["success"]) && v.fields["success"] != Bool(false)
    requires row == Obj(map["status" := Str("verified")]) && Get(v, "results") == Arr([row])
    ensures !IsSummary(v) && ExitCode(reader, t, v) == Code(0)
    ensures Summarize(reader, t, v).Status? && !Summarize(reader, t, v).compact.ok
  {
    OneVerifiedRow(v, row);
    MeasuredByItsRows(v);
    GenericOkIsDetailOk(v);
    assert ReportsFailure(v) == Clean;
  }

  predicate Carries(v: Value, success: Option<Value>) {
    v.Obj? && if success.None? then "success" !in v.fields
              else "success" in v.fields && v.fields["success"] == success.value
  }

  /** The compact status states the reply's own flags, each under its own name: what was committed, whether it was a
      preview, and how a revert went, absent when the reply states none. */
  lemma SummaryStatesTheFlags(reader: NumberText, t: Transform, v: Value)
    requires Summarize(reader, t, v).Status?
    ensures var c := Summarize(reader, t, v).compact;
            && (c.committed <==> "committed" in v.fields && Truthy(v.fields["committed"]))
            && (c.preview <==> "preview" in v.fields && Truthy(v.fields["preview"]))
            && c.rolledBack == (if Get(v, "rolled_back") == Null then None else Some(Truthy(Get(v, "rolled_back"))))
  {
  }

  predicate SomeRow(v: Value, holds: Value -> bool) {
    exists row :: row in RowsOf(v, "results") && holds(row)
  }

  /** The full detail leaves a reply that states its own `ok` as it is, and what is no object. */
  lemma StatedOkIsKept(reader: NumberText, v: Value)
    requires !v.Obj? || (!IsGoRename(v) && "ok" in v.fields)
    ensures WithOk(reader, v) == v
  {
  }

  /** How a reply exits: refused when its rows are no list or the scan meets one it cannot read; by 3 when the scan meets a
      failure, or none while `success` is false; else by whether it was measured. */
  lemma ExitExactly(reader: NumberText, t: Transform, v: Value)
    requires v.Obj? && !IsSummary(v)
    ensures Summarize(reader, t, v).Status?
    ensures var rows, exit := Get(v, "results"), ExitCode(reader, t, v);
            var listed, scan := rows.Null? || rows.Arr?, ScanRows(if rows.Arr? then rows.items else []);
            && (exit == Refused <==> !listed || scan == Malformed)
            && (exit == Code(3) <==> listed && (scan == Failure || (scan == Clean && Get(v, "success") == Bool(false))))
            && (exit == Code(0) <==> listed && scan == Clean && Get(v, "success") != Bool(false)
                                     && Summarize(reader, t, v).compact.measured)
  {
  }

  /** When a summary by rows says dirty: unmeasured, or a commit with a row that verified or failed irreversibly, or a
      revert that did not complete, or residue. */
  lemma DirtyExactlyWhen(reader: NumberText, t: Transform, v: Value)
    requires v.Obj? && !Counts(t, v) && !IsSummary(v)
    ensures Summarize(reader, t, v).Status?
    ensures var c := Summarize(reader, t, v).compact;
            var touched := SomeRow(v, row => Get(row, "status") == Str("verified")
                                             || (FailedStatus(row) && Get(row, "irreversible_change") == Bool(true)));
            c.dirtyAfter <==>
              || !c.measured
              || (FlagOr(v, "committed", false) && touched)
              || (Get(v, "rolled_back") == Bool(false) && !FlagOr(v, "committed", false))
              || FlagOr(v, "prototype_user_type_residue", false)
  {
    RowsTouched(RowsOf(v, "results"));
  }

  lemma {:induction false} RowsTouched(rows: seq<Value>)
    ensures WithStatus(rows, "verified") + Irreversible(Failures(rows)) > 0 <==>
              exists row :: row in rows && (Get(row, "status") == Str("verified")
                                            || (FailedStatus(row) && Get(row, "irreversible_change") == Bool(true)))
  {
    if rows != [] {
      var rest := Failures(rows[1..]);
      RowsTouched(rows[1..]);
      assert ([rows[0]] + rest)[1..] == rest && [] + rest == rest;
      assert forall row :: row in rows <==> row == rows[0] || row in rows[1..];
    }
  }

  /** What each row states as its status, in order. */
  function Statuses(rows: seq<Value>): seq<Value> {
    seq(|rows|, k requires 0 <= k < |rows| => Get(rows[k], "status"))
  }

  lemma {:induction false} CountedAsStated(rows: seq<Value>, status: string)
    ensures WithStatus(rows, status) == multiset(Statuses(rows))[Str(status)]
  {
    if rows != [] {
      CountedAsStated(rows[1..], status);
      assert Statuses(rows) == [Get(rows[0], "status")] + Statuses(rows[1..]);
    }
  }

  /** What a summary by rows states: it is measured exactly when there are rows and all of them and their statuses can be
      read, and then its counts are the rows of each status. */
  lemma StatesItsRows(reader: NumberText, t: Transform, v: Value)
    requires v.Obj? && !Counts(t, v) && !IsSummary(v)
    ensures Summarize(reader, t, v).Status?
    ensures var c, rows := Summarize(reader, t, v).compact, RowsOf(v, "results");
            && c.opCount == |rows|
            && (c.measured <==> rows != [] && !RowsSkew(v, "results") && forall row :: row in rows ==> !TextSkew(row, "status"))
            && (c.measured ==>
                  && var stated := multiset(Statuses(rows));
                     && c.verified == Some(stated[Str("verified")]) && c.noop == Some(stated[Str("noop")])
                     && c.reverted == (if Str("reverted") !in stated then None else Some(stated[Str("reverted")]))
                     && (c.failed == Some(0) <==> forall row :: row in rows ==> !FailedStatus(row)))
  {
    var rows := RowsOf(v, "results");
    CountedAsStated(rows, "verified");
    CountedAsStated(rows, "noop");
    CountedAsStated(rows, "reverted");
    NoFailures(rows);
  }

  lemma {:induction false} NoFailures(rows: seq<Value>)
    ensures Failures(rows) == [] <==> forall row :: row in rows ==> !FailedStatus(row)
  {
    if rows != [] {
      NoFailures(rows[1..]);
      assert rows == [rows[0]] + rows[1..];
    }
  }

  /** What a summary by counters states, for any reply: measured exactly when every counter and row can be read, the
      failure rows are as many as the failure counter says, and the counter `changed` comes from is there; and then
      `changed` is what landed, in a preview that is `ok` what verified, after a failed revert unknown, else nothing. */
  lemma StatesItsCounters(reader: NumberText, v: Value)
    requires v.Obj? && IsGoRename(v)
    ensures Summarize(reader, OwnCounters, v).Status?
    ensures var c := Summarize(reader, OwnCounters, v).compact;
            var committed, preview := FlagOr(v, "committed", false), FlagOr(v, "preview", false);
            var unreverted := !committed && Get(v, "rolled_back") == Bool(false);
            && (c.measured <==>
                  && CountersRead(reader, v) && Readable(v)
                  && |Failures(RowsOf(v, "results"))| == CountOf(reader, v, FAILED_COUNT)
                  && (committed ==> Get(v, COMMITTED_COUNT) != Null)
                  && (unreverted || (!committed && preview) ==> Get(v, VERIFIED_COUNT) != Null))
            && (c.ok <==> FlagOr(v, "success", true) && CountersRead(reader, v) && Readable(v)
                          && CountOf(reader, v, FAILED_COUNT) == 0 == |Failures(RowsOf(v, "results"))|)
            && c.verified == (if c.measured && Get(v, VERIFIED_COUNT) != Null then Some(CountOf(reader, v, VERIFIED_COUNT)) else None)
            && c.noop == (if c.measured && Get(v, SKIPPED_USER) != Null then Some(CountOf(reader, v, SKIPPED_USER)) else None)
            && (c.changed == None <==> !c.measured || unreverted)
            && (c.changed.Some? ==>
                  c.changed.value == if committed then CountOf(reader, v, COMMITTED_COUNT)
                                     else if preview && c.ok then CountOf(reader, v, VERIFIED_COUNT) else 0)
  {
  }

  /** A summary is handed back untouched, and any other object is summarized. */
  lemma OwnOutputIsUntouched(reader: NumberText, t: Transform, v: Value)
    ensures Get(v, "kind") == Str("mutation_summary") ==> Summarize(reader, t, v) == AsIs(v)
    ensures v.Obj? && Get(v, "kind") != Str("mutation_summary") ==> Summarize(reader, t, v).Status?
    ensures !v.Obj? ==> Summarize(reader, t, v) == AsIs(v)
  {
    assert "mutation_summary"[0] == 'm' && "go_rename"[0] == 'g';
  }

  /** A reply that is a summary already exits by what it says of itself, once no row and no `success` reports a failure;
      what is no object cannot be classified. */
  lemma OwnOutputExits(reader: NumberText, t: Transform, v: Value)
    ensures !v.Obj? ==> ExitCode(reader, t, v) == Refused
    ensures Get(v, "kind") == Str("mutation_summary") && Get(v, "results").Null? && Get(v, "success") != Bool(false) ==>
              var measured, exit := Get(v, "measured"), ExitCode(reader, t, v);
              && (exit == Code(0) <==> measured == Bool(true)) && (exit == Code(4) <==> measured == Bool(false))
              && (exit == Refused <==> !measured.Bool?)
  {
    OwnOutputIsUntouched(reader, t, v);
  }

  /** A derived count is stated only by a measured summary, and any withholding field keeps it from being one. */
  lemma CountsNeedMeasurement(reader: NumberText, t: Transform, v: Value)
    requires Summarize(reader, t, v).Status?
    ensures var c := Summarize(reader, t, v).compact;
            !c.measured ==> c.dirtyAfter && c.changed.None? && c.verified.None? && c.noop.None?
                            && c.failed.None? && c.reverted.None?
    ensures Withholding(reader, t, v) != {} ==>
              !Summarize(reader, t, v).compact.measured && !Summarize(reader, t, v).compact.ok
  {
    if Counts(t, v) && CountersRead(reader, v) {
      assert (set k | 0 <= k < |GO_COUNTERS| && CountSkew(reader, v, GO_COUNTERS[k]) :: GO_COUNTERS[k]) == {};
    }
  }
}
