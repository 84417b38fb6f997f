/** Honest engine runs, what they leave in the view, and what a corrupted reply may still say about them. */
module FailSafe {
  import opened Json
  import opened Skew
  import opened Mutation

  // ----- corruption -----

  /** A row as it may arrive: its decision fields as sent, or no object at all, or a status that is no text. What
      else it holds is free. */
  predicate RowCorrupted(row: Value, seen: Value) {
    || !seen.Obj?
    || TextSkew(seen, "status")
    || (Get(seen, "status") == Get(row, "status") && Get(seen, "irreversible_change") == Get(row, "irreversible_change"))
  }

  /** `results` replaced by a non-null non-list, or any of its rows corrupted. */
  predicate RowsCorrupted(rows: Value, seen: Value) {
    || (!seen.Null? && !seen.Arr?)
    || (rows.Arr? && seen.Arr? && |seen.items| == |rows.items|
        && forall k :: 0 <= k < |rows.items| ==> RowCorrupted(rows.items[k], seen.items[k]))
  }

  predicate CountCorrupted(reader: NumberText, count: Value, seen: Value) {
    seen == count || (!seen.Null? && StatedInt(reader, seen).None?)
  }

  predicate SameField(v: Value, w: Value, key: string) {
    Get(v, key) == Get(w, key) && (key in AsFields(v) <==> key in AsFields(w))
  }

  /** The envelope's own fields that a verdict turns on. */
  predicate SameFlags(v: Value, w: Value) {
    && SameField(v, w, "kind") && SameField(v, w, "success") && SameField(v, w, "committed")
    && SameField(v, w, "preview") && SameField(v, w, "rolled_back") && SameField(v, w, "prototype_user_type_residue")
  }

  /** The reply as it arrives: any number of rows, statuses and counters replaced by unreadable shapes, the flags as
      sent, and every field no verdict turns on whatever it is. */
  predicate Corrupted(reader: NumberText, t: Transform, sent: Value, seen: Value) {
    && seen.Obj? && SameFlags(sent, seen)
    && RowsCorrupted(Get(sent, "results"), Get(seen, "results"))
    && (Counts(t, sent) ==>
          forall k :: 0 <= k < |GO_COUNTERS| ==>
            CountCorrupted(reader, Get(sent, GO_COUNTERS[k]), Get(seen, GO_COUNTERS[k])))
  }

  // ----- rows and the operations they show -----

  /** What one operation came to. An idle one never ran: a sibling failed first, or a preview left it out. */
  datatype Op = Verified | Noop | Reverted | Idle(why: string) | Failed(status: string, irreversible: bool)

  const IDLE_STATUSES := {"not_attempted", "not_previewed"}

  predicate Possible(op: Op) {
    (op.Idle? ==> op.why in IDLE_STATUSES) && (op.Failed? ==> op.status in FAILED_STATUSES)
  }

  function OpStatus(op: Op): string {
    match op
    case Verified => "verified"
    case Noop => "noop"
    case Reverted => "reverted"
    case Idle(why) => why
    case Failed(status, _) => status
  }

  /** A row of the operation, whatever else it carries. */
  predicate RowShows(op: Op, row: Value) {
    && row.Obj? && Get(row, "status") == Str(OpStatus(op))
    && (op.Failed? ==> (Get(row, "irreversible_change") == Bool(true) <==> op.irreversible))
  }

  predicate RowsShow(ops: seq<Op>, rows: seq<Value>) {
    |ops| == |rows| && forall k :: 0 <= k < |ops| ==> RowShows(ops[k], rows[k])
  }

  predicate AllPossible(ops: seq<Op>) {
    forall k :: 0 <= k < |ops| ==> Possible(ops[k])
  }

  function HowMany(ops: seq<Op>, holds: Op -> bool): (n: nat)
    ensures n <= |ops|
  {
    if ops == [] then 0 else (if holds(ops[0]) then 1 else 0) + HowMany(ops[1..], holds)
  }

  function IsVerified(): Op -> bool { (op: Op) => op.Verified? }
  function IsNoop(): Op -> bool { (op: Op) => op.Noop? }
  function IsReverted(): Op -> bool { (op: Op) => op.Reverted? }
  function IsIdle(): Op -> bool { (op: Op) => op.Idle? }
  function IsFailed(): Op -> bool { (op: Op) => op.Failed? }
  function IsIrreversible(): Op -> bool { (op: Op) => op.Failed? && op.irreversible }

  /** Every operation is one of the five. */
  lemma {:induction false} EveryOpCounts(ops: seq<Op>)
    ensures HowMany(ops, IsVerified()) + HowMany(ops, IsNoop()) + HowMany(ops, IsReverted())
            + HowMany(ops, IsFailed()) + HowMany(ops, IsIdle()) == |ops|
  {
    if ops != [] {
      EveryOpCounts(ops[1..]);
    }
  }

  lemma {:induction false} SomeExactlyWhenCounted(ops: seq<Op>, holds: Op -> bool)
    ensures HowMany(ops, holds) > 0 <==> exists k :: 0 <= k < |ops| && holds(ops[k])
  {
    if ops != [] {
      SomeExactlyWhenCounted(ops[1..], holds);
      assert forall k :: 0 <= k < |ops[1..]| ==> ops[1..][k] == ops[k + 1];
      assert forall k :: 1 <= k < |ops| ==> ops[k] == ops[1..][k - 1];
    }
  }

  lemma StatusIsTold(op: Op)
    requires Possible(op)
    ensures OpStatus(op) in FAILED_STATUSES <==> op.Failed?
    ensures (OpStatus(op) == "verified" <==> op.Verified?) && (OpStatus(op) == "noop" <==> op.Noop?)
    ensures (OpStatus(op) == "reverted" <==> op.Reverted?) && OpStatus(op) != ""
  {
    assert "verified" !in FAILED_STATUSES && "noop" !in FAILED_STATUSES && "reverted" !in FAILED_STATUSES;
    assert "not_attempted" !in FAILED_STATUSES && "not_previewed" !in FAILED_STATUSES && "" !in FAILED_STATUSES;
  }

  lemma RowIsRead(op: Op, row: Value)
    requires Possible(op) && RowShows(op, row)
    ensures !TextSkew(row, "status") && (FailedStatus(row) <==> op.Failed?)
    ensures (Get(row, "status") == Str("verified") <==> op.Verified?) && (Get(row, "status") == Str("noop") <==> op.Noop?)
    ensures Get(row, "status") == Str("reverted") <==> op.Reverted?
  {
    StatusIsTold(op);
  }

  lemma RestShows(ops: seq<Op>, rows: seq<Value>)
    requires RowsShow(ops, rows) && AllPossible(ops) && ops != []
    ensures RowShows(ops[0], rows[0]) && Possible(ops[0])
    ensures RowsShow(ops[1..], rows[1..]) && AllPossible(ops[1..])
  {
  }

  lemma {:induction false} RowsCountOps(ops: seq<Op>, rows: seq<Value>)
    requires RowsShow(ops, rows) && AllPossible(ops)
    ensures WithStatus(rows, "verified") == HowMany(ops, IsVerified())
    ensures WithStatus(rows, "noop") == HowMany(ops, IsNoop())
    ensures WithStatus(rows, "reverted") == HowMany(ops, IsReverted())
  {
    if ops != [] {
      RestShows(ops, rows);
      RowIsRead(ops[0], rows[0]);
      RowsCountOps(ops[1..], rows[1..]);
    }
  }

  lemma {:induction false} RowsCountFailures(ops: seq<Op>, rows: seq<Value>)
    requires RowsShow(ops, rows) && AllPossible(ops)
    ensures |Failures(rows)| == HowMany(ops, IsFailed())
    ensures Irreversible(Failures(rows)) == HowMany(ops, IsIrreversible())
  {
    if ops != [] {
      var rest := Failures(rows[1..]);
      RestShows(ops, rows);
      RowIsRead(ops[0], rows[0]);
      RowsCountFailures(ops[1..], rows[1..]);
      assert ([rows[0]] + rest)[1..] == rest && [] + rest == rest;
    }
  }

  lemma RowsAreRead(ops: seq<Op>, rows: seq<Value>)
    requires RowsShow(ops, rows) && AllPossible(ops)
    ensures AllObjects(rows) && Objects(rows) == rows && StatusesRead(rows)
  {
    forall k | 0 <= k < |rows|
      ensures rows[k].Obj? && !TextSkew(rows[k], "status")
    {
      assert RowShows(ops[k], rows[k]);
    }
    ObjectsOfRows(rows);
  }

  /** The rows of a reply. */
  predicate ShowsIn(ops: seq<Op>, v: Value) {
    Get(v, "results").Arr? && RowsShow(ops, Get(v, "results").items)
  }

  /** What the row choke point makes of them. */
  lemma ReplyRows(ops: seq<Op>, v: Value)
    requires ShowsIn(ops, v) && AllPossible(ops)
    ensures Readable(v) && |RowsOf(v, "results")| == |ops|
    ensures WithStatus(RowsOf(v, "results"), "verified") == HowMany(ops, IsVerified())
    ensures WithStatus(RowsOf(v, "results"), "noop") == HowMany(ops, IsNoop())
    ensures WithStatus(RowsOf(v, "results"), "reverted") == HowMany(ops, IsReverted())
    ensures |Failures(RowsOf(v, "results"))| == HowMany(ops, IsFailed())
    ensures Irreversible(Failures(RowsOf(v, "results"))) == HowMany(ops, IsIrreversible())
  {
    var rows := Get(v, "results").items;
    RowsAreRead(ops, rows);
    assert RowsOf(v, "results") == rows;
    RowsCountOps(ops, rows);
    RowsCountFailures(ops, rows);
  }

  lemma RowSeenWhole(op: Op, row: Value, seen: Value)
    requires RowShows(op, row) && RowCorrupted(row, seen) && seen.Obj? && !TextSkew(seen, "status")
    ensures RowShows(op, seen)
  {
  }

  /** No corruption of the rows passes unnoticed: rows that can all be read still show what the rows sent showed. */
  lemma RowCorruptionIsSeen(ops: seq<Op>, sent: Value, seen: Value)
    requires ShowsIn(ops, sent) && RowsCorrupted(Get(sent, "results"), Get(seen, "results")) && Readable(seen)
    ensures ShowsIn(ops, seen)
  {
    var rows, items := Get(sent, "results").items, ListOf(seen, "results");
    ObjectsOfRows(items);
    forall k | 0 <= k < |items|
      ensures RowShows(ops[k], items[k])
    {
      assert RowsOf(seen, "results")[k] == items[k];
      RowSeenWhole(ops[k], rows[k], items[k]);
    }
  }

  // ----- runs of the ordinary engine -----

  /** One engine run. `restored`: the revert a preview or a failure needed left the view as it was. `residue`: an
      override the revert could not clear. `refused`: success withheld for another reason. */
  datatype Run = Run(preview: bool, committed: bool, ops: seq<Op>, restored: bool, residue: bool, refused: bool)

  predicate AnyFailed(ops: seq<Op>) {
    exists k :: 0 <= k < |ops| && ops[k].Failed?
  }

  /** A commit is live, and a failed operation is in it only if it could not be undone; residue is a failed revert. */
  predicate WellFormed(run: Run) {
    && run.ops != [] && AllPossible(run.ops)
    && (run.committed ==> !run.preview && !run.residue
                          && forall k :: 0 <= k < |run.ops| && run.ops[k].Failed? ==> run.ops[k].irreversible)
    && (run.residue ==> !run.restored)
  }

  predicate Succeeded(run: Run) {
    !AnyFailed(run.ops) && (run.committed || run.restored) && !run.refused
  }

  /** What is, or may be, live when the run returns: what it committed, irreversible attempts included, or what a
      failed revert left behind. */
  predicate LeftChanged(run: Run) {
    if run.committed then exists k :: 0 <= k < |run.ops| && (run.ops[k].Verified? || run.ops[k].Failed?)
    else !run.restored
  }

  /** What the bridge sends for a run: its decision fields; every other field, and what else a row holds, is free. */
  predicate IsReply(run: Run, v: Value) {
    && v.Obj? && ShowsIn(run.ops, v)
    && Get(v, "success") == Bool(Succeeded(run)) && Get(v, "committed") == Bool(run.committed)
    && Get(v, "preview") == Bool(run.preview)
    && (!run.committed ==> Get(v, "rolled_back") == Bool(run.restored))
    && (FlagOr(v, "prototype_user_type_residue", false) <==> run.residue)
  }

  /** The reply is summarized by its rows. */
  predicate ByRows(t: Transform, v: Value) { !Counts(t, v) && !IsSummary(v) }

  lemma ReplyFlags(run: Run, v: Value)
    requires IsReply(run, v)
    ensures (FlagOr(v, "success", true) <==> Succeeded(run)) && (FlagOr(v, "committed", false) <==> run.committed)
    ensures FlagOr(v, "preview", false) <==> run.preview
  {
  }

  /** The compact status of any honest reply, in the run's own terms. */
  lemma HonestSummary(reader: NumberText, t: Transform, run: Run, v: Value)
    requires WellFormed(run) && IsReply(run, v) && ByRows(t, v)
    ensures Summarize(reader, t, v) == Status(GenericSummary(v))
    ensures var c := GenericSummary(v);
            && c.measured && c.opCount == |run.ops|
            && c.verified == Some(HowMany(run.ops, IsVerified())) && c.noop == Some(HowMany(run.ops, IsNoop()))
            && c.failed == Some(HowMany(run.ops, IsFailed()))
            && (c.ok <==> Succeeded(run) && HowMany(run.ops, IsFailed()) == 0)
  {
    ReplyRows(run.ops, v);
    ReplyFlags(run, v);
  }

  lemma HonestChange(run: Run, v: Value)
    requires WellFormed(run) && IsReply(run, v)
    ensures var c, changed := GenericSummary(v), HowMany(run.ops, IsVerified()) + HowMany(run.ops, IsIrreversible());
            && c.changed == (if run.committed || run.restored then Some(changed) else None)
            && (c.dirtyAfter <==> if run.committed then changed > 0 else !run.restored)
            && c.reverted == (if HowMany(run.ops, IsReverted()) == 0 then None
                              else Some(HowMany(run.ops, IsReverted())))
  {
    ReplyRows(run.ops, v);
    ReplyFlags(run, v);
  }

  /** The flags a run states are the summary's. */
  lemma HonestFlags(reader: NumberText, t: Transform, run: Run, v: Value)
    requires IsReply(run, v) && ByRows(t, v)
    ensures Summarize(reader, t, v).Status?
    ensures var c := Summarize(reader, t, v).compact;
            && (c.committed <==> run.committed) && (c.preview <==> run.preview)
            && (c.rolledBack.None? <==> Get(v, "rolled_back").Null?)
            && (!run.committed ==> c.rolledBack == Some(run.restored))
  {
    SummaryStatesTheFlags(reader, t, v);
  }

  /** In a commit, what was or may have been changed is what verified and what failed. */
  lemma CommittedChange(run: Run)
    requires WellFormed(run) && run.committed
    ensures HowMany(run.ops, IsVerified()) + HowMany(run.ops, IsIrreversible()) > 0 <==> LeftChanged(run)
  {
    SomeExactlyWhenCounted(run.ops, IsVerified());
    SomeExactlyWhenCounted(run.ops, IsIrreversible());
  }

  /** An honest reply that arrives whole is judged exactly: dirty just when the run left, or may have left, a change,
      and `ok` just when it succeeded. */
  lemma HonestReplyIsExact(reader: NumberText, t: Transform, run: Run, v: Value)
    requires WellFormed(run) && IsReply(run, v) && ByRows(t, v)
    ensures Summarize(reader, t, v).Status?
    ensures var c := Summarize(reader, t, v).compact;
            && c.measured && (c.dirtyAfter <==> LeftChanged(run)) && (c.ok <==> Succeeded(run))
            && (c.committed <==> run.committed) && (c.preview <==> run.preview)
            && (c.rolledBack.None? <==> Get(v, "rolled_back").Null?)
            && (!run.committed ==> c.rolledBack == Some(run.restored))
  {
    HonestFlags(reader, t, run, v);
    HonestSummary(reader, t, run, v);
    HonestChange(run, v);
    SomeExactlyWhenCounted(run.ops, IsFailed());
    if run.committed {
      CommittedChange(run);
    }
  }

  /** Its counts are the run's own. They add up to its operations exactly when every one of them ran; `changed` is
      withheld exactly when a revert did not complete. */
  lemma HonestCountsAddUp(reader: NumberText, t: Transform, run: Run, v: Value)
    requires WellFormed(run) && IsReply(run, v) && ByRows(t, v)
    ensures Summarize(reader, t, v).Status?
    ensures var c, reverted := Summarize(reader, t, v).compact, HowMany(run.ops, IsReverted());
            && c.verified == Some(HowMany(run.ops, IsVerified())) && c.noop == Some(HowMany(run.ops, IsNoop()))
            && c.failed == Some(HowMany(run.ops, IsFailed()))
            && c.reverted == (if reverted == 0 then None else Some(reverted))
            && c.opCount == c.verified.value + c.noop.value + c.failed.value + reverted + HowMany(run.ops, IsIdle())
            && (c.opCount == c.verified.value + c.noop.value + c.failed.value + reverted
                <==> forall k :: 0 <= k < |run.ops| ==> !run.ops[k].Idle?)
            && (c.changed.None? <==> !run.committed && !run.restored)
  {
    HonestSummary(reader, t, run, v);
    HonestChange(run, v);
    EveryOpCounts(run.ops);
    SomeExactlyWhenCounted(run.ops, IsIdle());
  }

  /** Two operations: the first fails, so the second is never attempted. */
  function Abandoned(): Run {
    Run(false, false, [Failed("verification_failed", false), Idle("not_attempted")], true, false, false)
  }

  /** Every reply of such a run counts two operations and accounts for one. */
  lemma UnattemptedOpsAreInNoCount(reader: NumberText, t: Transform, v: Value)
    requires IsReply(Abandoned(), v) && ByRows(t, v)
    ensures WellFormed(Abandoned()) && Summarize(reader, t, v).Status?
    ensures var c := Summarize(reader, t, v).compact;
            c.measured && c.opCount == 2 && c.verified == Some(0) && c.noop == Some(0) && c.failed == Some(1)
            && c.reverted == None
  {
    var ops := Abandoned().ops;
    assert ops[1..] == [ops[1]] && ops[1..][1..] == [];
    OneOfTwo(ops, IsVerified());
    OneOfTwo(ops, IsNoop());
    OneOfTwo(ops, IsReverted());
    OneOfTwo(ops, IsFailed());
    HonestSummary(reader, t, Abandoned(), v);
    HonestChange(Abandoned(), v);
  }

  lemma OneOfTwo(ops: seq<Op>, holds: Op -> bool)
    requires |ops| == 2
    ensures HowMany(ops, holds) == (if holds(ops[0]) then 1 else 0) + (if holds(ops[1]) then 1 else 0)
  {
    assert HowMany(ops[1..], holds) == (if holds(ops[1]) then 1 else 0) + HowMany(ops[1..][1..], holds);
  }

  function AbandonedRows(): seq<Value> {
    [Obj(map["status" := Str("verification_failed")]), Obj(map["status" := Str("not_attempted")])]
  }

  /** One such reply, with its message and its empty diffs. */
  lemma AbandonedReply(v: Value)
    requires v.Obj? && Get(v, "results") == Arr(AbandonedRows()) && Get(v, "rolled_back") == Bool(true)
    requires Get(v, "success") == Bool(false) && Get(v, "committed") == Bool(false) && Get(v, "preview") == Bool(false)
    requires "prototype_user_type_residue" !in v.fields
    ensures IsReply(Abandoned(), v)
  {
    var ops, rows := Abandoned().ops, AbandonedRows();
    assert RowShows(ops[0], rows[0]) && RowShows(ops[1], rows[1]);
    assert ops[0].Failed?;
  }

  /** However its rows and statuses are corrupted, whatever else it carries, the reply of a run that left the view
      changed never reads clean. */
  lemma CorruptedReplyNeverReadsClean(reader: NumberText, t: Transform, run: Run, sent: Value, seen: Value)
    requires WellFormed(run) && LeftChanged(run) && IsReply(run, sent) && ByRows(t, sent)
    requires Corrupted(reader, t, sent, seen)
    ensures Summarize(reader, t, seen).Status? && Summarize(reader, t, seen).compact.dirtyAfter
  {
    assert ByRows(t, seen);
    if Readable(seen) {
      RowCorruptionIsSeen(run.ops, sent, seen);
      HonestReplyIsExact(reader, t, run, seen);
    } else {
      UnreadableIsDirty(reader, t, seen);
    }
  }

  lemma UnreadableIsDirty(reader: NumberText, t: Transform, v: Value)
    requires v.Obj? && ByRows(t, v) && !Readable(v)
    ensures Summarize(reader, t, v).Status? && Summarize(reader, t, v).compact.dirtyAfter
  {
  }

  // ----- runs of `go rename` -----

  /** What one candidate came to: `Already` named so by then, or renamed by its user `Underneath` the run. The run
      stops at the first that breaks. */
  datatype Outcome = Renamed | Broke | Already | Underneath

  /** A run with nothing to rename, on a view that cannot be renamed in, or one that went through candidates, some
      of them possibly never reached. */
  datatype GoRun =
    | Empty(preview: bool, userNamed: nat)
    | Unsupported(preview: bool, candidates: nat, userNamed: nat)
    | Applied(preview: bool, done: seq<Outcome>, unreached: nat, userNamed: nat, restored: bool)

  function Came(done: seq<Outcome>, o: Outcome): nat {
    if done == [] then 0 else (if done[0] == o then 1 else 0) + Came(done[1..], o)
  }

  lemma {:induction false} EveryCandidateCame(done: seq<Outcome>)
    ensures Came(done, Renamed) + Came(done, Broke) + Came(done, Already) + Came(done, Underneath) == |done|
  {
    if done != [] {
      EveryCandidateCame(done[1..]);
    }
  }

  /** Only the last can have broken, and candidates are left unreached only behind it. */
  predicate GoWellFormed(run: GoRun) {
    match run
    case Empty(_, _) => true
    case Unsupported(_, candidates, _) => candidates > 0
    case Applied(_, done, unreached, _, _) =>
      && done != []
      && (forall k :: 0 <= k < |done| - 1 ==> !done[k].Broke?)
      && (unreached > 0 ==> done[|done| - 1].Broke?)
  }

  function GoCandidates(run: GoRun): nat {
    match run
    case Empty(_, _) => 0
    case Unsupported(_, candidates, _) => candidates
    case Applied(_, done, unreached, _, _) => |done| + unreached
  }

  function GoVerified(run: GoRun): nat { if run.Applied? then Came(run.done, Renamed) else 0 }

  function GoFailed(run: GoRun): nat {
    if run.Applied? then Came(run.done, Broke) else if run.Unsupported? then 1 else 0
  }

  function GoUnderneath(run: GoRun): nat { if run.Applied? then Came(run.done, Underneath) else 0 }

  predicate GoCommitted(run: GoRun) { run.Applied? && !run.preview && GoFailed(run) == 0 }

  /** Whether the run reverts, and says how that went. */
  predicate GoReverts(run: GoRun) { run.Unsupported? || (run.Applied? && !GoCommitted(run)) }

  predicate GoRestored(run: GoRun) { run.Applied? ==> run.restored }

  predicate GoSucceeded(run: GoRun) {
    GoFailed(run) == 0 && (run.Applied? && run.preview ==> run.restored)
  }

  predicate GoLeftChanged(run: GoRun) {
    if GoCommitted(run) then GoVerified(run) > 0 else !GoRestored(run)
  }

  /** The candidates no count states: never reached, or already named. */
  function Unaccounted(run: GoRun): nat {
    match run
    case Empty(_, _) => 0
    case Unsupported(_, candidates, _) => if candidates == 0 then 0 else candidates - 1
    case Applied(_, done, unreached, _, _) => unreached + Came(done, Already)
  }

  predicate States(v: Value, key: string, n: nat) { Get(v, key) == Int(n) }

  /** A bucket is sent only when it is not empty. */
  predicate Bucket(v: Value, key: string, n: nat) {
    if n == 0 then Get(v, key).Null? else States(v, key, n)
  }

  /** What the bridge sends for a run; the fields not named here are free, and the scan's two buckets hold what the
      scan found. */
  predicate IsGoReply(run: GoRun, already: nat, interior: nat, v: Value) {
    && v.Obj? && IsGoRename(v) && GoRows(run, v) && GoCounters(run, already, interior, v)
    && Get(v, "success") == Bool(GoSucceeded(run)) && Get(v, "committed") == Bool(GoCommitted(run))
    && Get(v, "preview") == Bool(run.preview)
    && Get(v, "rolled_back") == (if GoReverts(run) then Bool(GoRestored(run)) else Null)
  }

  /** One row for each failure, and no other. */
  predicate GoRows(run: GoRun, v: Value) {
    ShowsIn(if GoFailed(run) == 0 then [] else [GoFailure(run)], v)
  }

  function GoFailure(run: GoRun): Op {
    Failed(if run.Unsupported? then "unsupported" else "verification_failed", false)
  }

  predicate GoCounters(run: GoRun, already: nat, interior: nat, v: Value) {
    && States(v, CANDIDATES, GoCandidates(run)) && States(v, VERIFIED_COUNT, GoVerified(run))
    && States(v, FAILED_COUNT, GoFailed(run))
    && States(v, COMMITTED_COUNT, if GoCommitted(run) then GoVerified(run) else 0)
    && States(v, SKIPPED_USER, run.userNamed + GoUnderneath(run))
    && Bucket(v, SKIPPED_CHANGED, GoUnderneath(run)) && Bucket(v, SKIPPED_ALREADY, already)
    && Bucket(v, SKIPPED_INTERIOR, interior)
  }

  /** Breaking stops the run, so at most one candidate breaks. */
  lemma {:induction false} OneBreaks(done: seq<Outcome>)
    requires done != [] && forall k :: 0 <= k < |done| - 1 ==> !done[k].Broke?
    ensures Came(done, Broke) == if done[|done| - 1].Broke? then 1 else 0
  {
    if |done| > 1 {
      OneBreaks(done[1..]);
    } else {
      assert done[1..] == [];
    }
  }

  lemma GoRowsAreRead(run: GoRun, v: Value)
    requires GoWellFormed(run) && GoRows(run, v)
    ensures Readable(v) && |Failures(RowsOf(v, "results"))| == GoFailed(run) <= 1
  {
    if run.Applied? {
      OneBreaks(run.done);
    }
    var ops := if GoFailed(run) == 0 then [] else [GoFailure(run)];
    assert AllPossible(ops);
    ReplyRows(ops, v);
    assert GoFailed(run) > 0 ==> ops[1..] == [];
  }

  lemma GoCountersAreRead(reader: NumberText, run: GoRun, already: nat, interior: nat, v: Value)
    requires GoCounters(run, already, interior, v)
    ensures CountersRead(reader, v)
  {
    forall k | 0 <= k < |GO_COUNTERS|
      ensures Get(v, GO_COUNTERS[k]).Int? || Get(v, GO_COUNTERS[k]).Null?
    {
    }
  }

  lemma GoCountsAreRead(reader: NumberText, run: GoRun, already: nat, interior: nat, v: Value)
    requires GoCounters(run, already, interior, v)
    ensures CountOf(reader, v, CANDIDATES) == GoCandidates(run) && CountOf(reader, v, VERIFIED_COUNT) == GoVerified(run)
    ensures CountOf(reader, v, FAILED_COUNT) == GoFailed(run)
    ensures CountOf(reader, v, COMMITTED_COUNT) == if GoCommitted(run) then GoVerified(run) else 0
    ensures CountOf(reader, v, SKIPPED_USER) == run.userNamed + GoUnderneath(run)
    ensures CountOf(reader, v, SKIPPED_CHANGED) == GoUnderneath(run)
    ensures Present(v, COMMITTED_COUNT) && Present(v, VERIFIED_COUNT) && Present(v, SKIPPED_USER)
  {
  }

  lemma GoFlagsAreRead(run: GoRun, already: nat, interior: nat, v: Value)
    requires IsGoReply(run, already, interior, v)
    ensures (FlagOr(v, "success", true) <==> GoSucceeded(run)) && (FlagOr(v, "committed", false) <==> GoCommitted(run))
    ensures FlagOr(v, "preview", false) <==> run.preview
  {
  }

  /** What the summary reads off an honest reply. */
  function GoTally(run: GoRun): Tally {
    Tally(GoCandidates(run), if GoCommitted(run) then GoVerified(run) else 0, GoVerified(run), GoFailed(run),
          run.userNamed + GoUnderneath(run), GoUnderneath(run), true, true, true, GoFailed(run), true,
          GoSucceeded(run), GoCommitted(run), run.preview,
          if GoReverts(run) then Bool(GoRestored(run)) else Null)
  }

  lemma GoReplyIsRead(reader: NumberText, run: GoRun, already: nat, interior: nat, v: Value)
    requires GoWellFormed(run) && IsGoReply(run, already, interior, v)
    ensures TallyOf(reader, v) == GoTally(run)
  {
    GoRowsAreRead(run, v);
    GoCountersAreRead(reader, run, already, interior, v);
    GoCountsAreRead(reader, run, already, interior, v);
    GoFlagsAreRead(run, already, interior, v);
  }

  /** Judged exactly: dirty just when the run left, or may have left, a name behind, `ok` just when it succeeded,
      committed and preview as it was, and how its revert went if it made one. */
  predicate GoJudged(run: GoRun, c: Compact) {
    && c.measured && (c.dirtyAfter <==> GoLeftChanged(run)) && (c.ok <==> GoSucceeded(run))
    && (c.committed <==> GoCommitted(run)) && (c.preview <==> run.preview)
    && c.rolledBack == (if GoReverts(run) then Some(GoRestored(run)) else None)
  }

  lemma HonestGoSummary(reader: NumberText, run: GoRun, already: nat, interior: nat, v: Value)
    requires GoWellFormed(run) && IsGoReply(run, already, interior, v)
    ensures Summarize(reader, OwnCounters, v) == Status(GoFrom(GoTally(run)))
  {
    GoReplyIsRead(reader, run, already, interior, v);
  }

  /** The counters alone decide an honest `go rename` that arrives whole. */
  lemma HonestGoReplyIsExact(reader: NumberText, run: GoRun, already: nat, interior: nat, v: Value)
    requires GoWellFormed(run) && IsGoReply(run, already, interior, v)
    ensures Summarize(reader, OwnCounters, v).Status?
    ensures GoJudged(run, Summarize(reader, OwnCounters, v).compact)
  {
    HonestGoSummary(reader, run, already, interior, v);
    GoTallyIsExact(run);
  }

  lemma GoTallyIsExact(run: GoRun)
    ensures GoJudged(run, GoFrom(GoTally(run)))
  {
  }

  /** The run's own counts, which fall short of its operations by the candidates never reached and those already
      named, so that they add up exactly when there is neither. `changed` is what landed or would have, nothing after
      a revert, and withheld when that did not complete. */
  predicate GoAccounts(run: GoRun, c: Compact) {
    && c.verified == Some(GoVerified(run)) && c.noop == Some(run.userNamed + GoUnderneath(run))
    && c.failed == Some(GoFailed(run))
    && c.opCount == c.verified.value + c.noop.value + c.failed.value + Unaccounted(run)
    && (c.opCount == c.verified.value + c.noop.value + c.failed.value <==> Unaccounted(run) == 0)
    && c.changed == (if GoReverts(run) && !GoRestored(run) then None
                     else if GoCommitted(run) || (run.preview && GoFailed(run) == 0) then Some(GoVerified(run))
                     else Some(0))
  }

  lemma HonestGoCountsAddUp(reader: NumberText, run: GoRun, already: nat, interior: nat, v: Value)
    requires GoWellFormed(run) && IsGoReply(run, already, interior, v)
    ensures Summarize(reader, OwnCounters, v).Status?
    ensures GoAccounts(run, Summarize(reader, OwnCounters, v).compact)
  {
    HonestGoSummary(reader, run, already, interior, v);
    GoTallyAccounts(run);
  }

  lemma GoTallyAccounts(run: GoRun)
    requires GoWellFormed(run)
    ensures GoAccounts(run, GoFrom(GoTally(run)))
  {
    if run.Applied? {
      EveryCandidateCame(run.done);
    }
  }

  /** Three candidates, the first of which breaks. */
  function StoppedRun(): GoRun { Applied(false, [Broke], 2, 0, true) }

  /** Every reply of that run counts three operations and accounts for one. */
  lemma UnreachedCandidatesAreInNoCount(reader: NumberText, v: Value)
    requires IsGoReply(StoppedRun(), 0, 0, v)
    ensures GoWellFormed(StoppedRun()) && Summarize(reader, OwnCounters, v).Status?
    ensures var c := Summarize(reader, OwnCounters, v).compact;
            c.measured && c.opCount == 3 && c.verified == Some(0) && c.noop == Some(0) && c.failed == Some(1)
  {
    OneCame();
    HonestGoReplyIsExact(reader, StoppedRun(), 0, 0, v);
    HonestGoCountsAddUp(reader, StoppedRun(), 0, 0, v);
    StoppedAccounts(Summarize(reader, OwnCounters, v).compact);
  }

  lemma StoppedAccounts(c: Compact)
    requires GoJudged(StoppedRun(), c) && GoAccounts(StoppedRun(), c)
    ensures c.measured && c.opCount == 3 && c.verified == Some(0) && c.noop == Some(0) && c.failed == Some(1)
  {
    OneCame();
  }

  lemma OneCame()
    ensures GoWellFormed(StoppedRun())
    ensures GoVerified(StoppedRun()) == 0 && GoFailed(StoppedRun()) == 1 && GoUnderneath(StoppedRun()) == 0
    ensures Unaccounted(StoppedRun()) == 2
  {
    assert [Broke][1..] == [];
  }

  lemma StoppedCounters(v: Value)
    requires Get(v, CANDIDATES) == Int(3) && Get(v, FAILED_COUNT) == Int(1)
    requires Get(v, VERIFIED_COUNT) == Int(0) && Get(v, COMMITTED_COUNT) == Int(0) && Get(v, SKIPPED_USER) == Int(0)
    requires Get(v, SKIPPED_CHANGED).Null? && Get(v, SKIPPED_ALREADY).Null? && Get(v, SKIPPED_INTERIOR).Null?
    ensures GoCounters(StoppedRun(), 0, 0, v)
  {
    OneCame();
  }

  /** One such reply. */
  lemma StoppedReply(v: Value)
    requires v.Obj? && Get(v, "kind") == Str("go_rename") && Get(v, "rolled_back") == Bool(true)
    requires Get(v, "results") == Arr([Obj(map["status" := Str("verification_failed")])])
    requires Get(v, "success") == Bool(false) && Get(v, "committed") == Bool(false) && Get(v, "preview") == Bool(false)
    requires Get(v, CANDIDATES) == Int(3) && Get(v, FAILED_COUNT) == Int(1)
    requires Get(v, VERIFIED_COUNT) == Int(0) && Get(v, COMMITTED_COUNT) == Int(0) && Get(v, SKIPPED_USER) == Int(0)
    requires Get(v, SKIPPED_CHANGED).Null? && Get(v, SKIPPED_ALREADY).Null? && Get(v, SKIPPED_INTERIOR).Null?
    ensures IsGoReply(StoppedRun(), 0, 0, v)
  {
    OneCame();
    StoppedCounters(v);
    assert RowShows(GoFailure(StoppedRun()), Get(v, "results").items[0]);
  }

  /** However its counters, rows and statuses are corrupted, whatever else it carries, a `go rename` that left names
      behind never reads as the run that changed nothing. */
  lemma CorruptedGoReplyNeverReadsClean(reader: NumberText, run: GoRun, already: nat, interior: nat, sent: Value, seen: Value)
    requires GoWellFormed(run) && GoLeftChanged(run) && IsGoReply(run, already, interior, sent)
    requires Corrupted(reader, OwnCounters, sent, seen)
    ensures Summarize(reader, OwnCounters, seen).Status? && Summarize(reader, OwnCounters, seen).compact.dirtyAfter
  {
    if GoReadable(reader, seen) {
      RowCorruptionIsSeen(if GoFailed(run) == 0 then [] else [GoFailure(run)], sent, seen);
      CounterCorruptionIsSeen(reader, run, already, interior, sent, seen);
      HonestGoReplyIsExact(reader, run, already, interior, seen);
    } else {
      UnreadableGoIsDirty(reader, seen);
    }
  }

  lemma CounterCorruptionIsSeen(reader: NumberText, run: GoRun, already: nat, interior: nat, sent: Value, seen: Value)
    requires GoCounters(run, already, interior, sent) && CountersRead(reader, seen)
    requires forall k :: 0 <= k < |GO_COUNTERS| ==>
               CountCorrupted(reader, Get(sent, GO_COUNTERS[k]), Get(seen, GO_COUNTERS[k]))
    ensures GoCounters(run, already, interior, seen)
  {
    forall k | 0 <= k < |GO_COUNTERS|
      ensures Get(seen, GO_COUNTERS[k]) == Get(sent, GO_COUNTERS[k])
    {
      assert !CountSkew(reader, seen, GO_COUNTERS[k]);
    }
    SameEight(run, already, interior, sent, seen);
  }

  lemma SameEight(run: GoRun, already: nat, interior: nat, sent: Value, seen: Value)
    requires GoCounters(run, already, interior, sent)
    requires forall k :: 0 <= k < |GO_COUNTERS| ==> Get(seen, GO_COUNTERS[k]) == Get(sent, GO_COUNTERS[k])
    ensures GoCounters(run, already, interior, seen)
  {
    assert Get(seen, GO_COUNTERS[0]) == Get(sent, GO_COUNTERS[0]) && Get(seen, GO_COUNTERS[1]) == Get(sent, GO_COUNTERS[1]);
    assert Get(seen, GO_COUNTERS[2]) == Get(sent, GO_COUNTERS[2]) && Get(seen, GO_COUNTERS[3]) == Get(sent, GO_COUNTERS[3]);
    assert Get(seen, GO_COUNTERS[4]) == Get(sent, GO_COUNTERS[4]) && Get(seen, GO_COUNTERS[5]) == Get(sent, GO_COUNTERS[5]);
    assert Get(seen, GO_COUNTERS[6]) == Get(sent, GO_COUNTERS[6]) && Get(seen, GO_COUNTERS[7]) == Get(sent, GO_COUNTERS[7]);
  }

  lemma UnreadableGoIsDirty(reader: NumberText, v: Value)
    requires Counts(OwnCounters, v) && v.Obj? && !GoReadable(reader, v)
    ensures Summarize(reader, OwnCounters, v).Status? && Summarize(reader, OwnCounters, v).compact.dirtyAfter
  {
  }
}
