/** A survey over instances and targets: `_fanout_call` plans, reads on a pool, and assembles the rows. */
module Fanout {
  import opened Json

  /** `None` for an absent `--instance` and for a target to be resolved normally is JSON null. */
  type Id = Value

  /** One bridge read for a known target: its result and the note its page calls for, or a refusal. */
  datatype Reply = Answered(result: Value, note: string) | Refused(error: string)

  /** Which call of the survey this is: the instance's place in the list, and the target's place in its plan. */
  datatype Place = Place(instance: nat, target: nat)

  /** Everything outside, call by call: two calls need not be answered alike, whatever they ask for. The answer to
      `list_targets`, normal target resolution, the read itself; and how a refusal is respelled for one call. */
  datatype Bridges = Bridges(
    listTargets: (nat, Id) -> Result<Value, string>,
    resolve: (Place, Id) -> Result<Id, string>,
    read: (Place, Id, Id) -> Reply,
    respell: (Id, string) -> string)

  datatype Mode = AllTargets | AllInstances | ExplicitTarget

  // ----- planning -----

  datatype Plan = Targets(selectors: seq<Id>, surveyed: bool) | Problem(error: string)

  function IdOf(t: Value): Id {
    if Truthy(Get(t, "target_id")) then Get(t, "target_id") else Get(t, "selector")
  }

  function IdsOf(items: seq<Value>): seq<Id> {
    if items == [] then []
    else (if items[0].Obj? then [IdOf(items[0])] else []) + IdsOf(items[1..])
  }

  const MALFORMED := "malformed bridge reply to list_targets"

  function InstanceTargetIds(b: Bridges, k: nat, iid: Id): Result<seq<Id>, string> {
    match b.listTargets(k, iid)
    case Err(e) => Err(e)
    case Ok(v) => if v.Arr? then Ok(IdsOf(v.items)) else Err(MALFORMED)
  }

  /** `_plan_instance`, for the instance in place `k`. */
  function PlanInstance(b: Bridges, mode: Mode, k: nat, iid: Id): Plan {
    match mode
    case AllTargets =>
      (match InstanceTargetIds(b, k, iid)
       case Err(e) => Problem("list targets: " + e)
       case Ok(ids) => if ids == [] then Problem("no targets open") else Targets(ids, false))
    case AllInstances =>
      (match InstanceTargetIds(b, k, iid)
       case Err(_) => Targets([Null], false)
       case Ok(ids) =>
         if ids != [] && Null !in ids then Targets(ids, |ids| > 1) else Targets([Null], false))
    case ExplicitTarget => Targets([Null], false)
  }

  // ----- one read -----

  datatype Item = Item(place: Place, instance: Id, selector: Id)

  datatype Row = Row(instance: Id, target: Id, outcome: Result<Value, string>)

  type Key = (Id, Id)

  /** `_run_one`: its row, and the note it leaves beside the rows. */
  datatype Done = Done(row: Row, note: string)

  function RunOne(b: Bridges, item: Item): Done {
    var target := if item.selector == Null then b.resolve(item.place, item.instance) else Ok(item.selector);
    match target
    case Err(e) => Done(Row(item.instance, item.selector, Err(b.respell(item.instance, e))), "")
    case Ok(t) =>
      match b.read(item.place, item.instance, t)
      case Refused(e) => Done(Row(item.instance, item.selector, Err(b.respell(item.instance, e))), "")
      case Answered(v, note) => Done(Row(item.instance, t, Ok(v)), note)
  }

  // ----- the pool -----

  predicate Within(order: seq<nat>, n: nat) {
    forall i :: 0 <= i < |order| ==> order[i] < n
  }

  /** The order in which workers finish: every item once. */
  predicate Schedule(order: seq<nat>, n: nat) {
    && |order| == n && Within(order, n)
    && (forall i, j :: 0 <= i < j < n ==> order[i] != order[j])
  }

  function SetOf(order: seq<nat>): set<nat> {
    set i | 0 <= i < |order| :: order[i]
  }

  function Below(n: nat): (s: set<nat>)
    ensures |s| == n && forall i :: i in s <==> 0 <= i < n
  {
    if n == 0 then {} else Below(n - 1) + {n - 1}
  }

  lemma {:induction false} SetOfDistinct(order: seq<nat>)
    requires forall i, j :: 0 <= i < j < |order| ==> order[i] != order[j]
    ensures |SetOf(order)| == |order|
  {
    if order != [] {
      var before, last := order[..|order| - 1], order[|order| - 1];
      SetOfDistinct(before);
      assert SetOf(order) == SetOf(before) + {last};
    }
  }

  lemma SubsetOfSameSize(a: set<nat>, b: set<nat>)
    requires a <= b && |a| == |b|
    ensures a == b
  {
    assert |b - a| == |b| - |a|;
    assert b == a + (b - a);
  }

  /** A schedule leaves no item out. */
  lemma ScheduleReachesAll(order: seq<nat>, n: nat, k: nat)
    requires Schedule(order, n) && k < n
    ensures k in order
  {
    SetOfDistinct(order);
    SubsetOfSameSize(SetOf(order), Below(n));
    assert k in SetOf(order);
  }

  /** Workers finishing in this order have filled the slots of the first `step` of them. */
  predicate Filled<T(==)>(slots: seq<T>, all: seq<T>, order: seq<nat>, step: nat) {
    && |slots| == |all| && step <= |order| && Within(order, |all|)
    && forall j :: 0 <= j < step ==> slots[order[j]] == all[order[j]]
  }

  lemma FillsOne<T>(slots: seq<T>, all: seq<T>, order: seq<nat>, step: nat)
    requires Filled(slots, all, order, step) && step < |order|
    ensures Filled(slots[order[step] := all[order[step]]], all, order, step + 1)
  {
  }

  lemma FillsAll<T>(slots: seq<T>, all: seq<T>, order: seq<nat>)
    requires Filled(slots, all, order, |order|) && Schedule(order, |all|)
    ensures slots == all
  {
    forall k | 0 <= k < |all|
      ensures slots[k] == all[k]
    {
      ScheduleReachesAll(order, |all|, k);
    }
  }

  /** Planning on the pool: each worker fills its own slot, in whatever order they finish. */
  method PlanAll(b: Bridges, mode: Mode, iids: seq<Id>, order: seq<nat>) returns (plans: seq<Plan>)
    requires Schedule(order, |iids|)
    ensures plans == seq(|iids|, i requires 0 <= i < |iids| => PlanInstance(b, mode, i, iids[i]))
  {
    ghost var all := seq(|iids|, i requires 0 <= i < |iids| => PlanInstance(b, mode, i, iids[i]));
    var slots := new Plan[|iids|](_ => Problem(""));
    for step := 0 to |order|
      invariant Filled(slots[..], all, order, step)
    {
      FillsOne(slots[..], all, order, step);
      slots[order[step]] := PlanInstance(b, mode, order[step], iids[order[step]]);
    }
    FillsAll(slots[..], all, order);
    plans := slots[..];
  }

  function KeyOf(r: Row): Key {
    (r.instance, r.target)
  }

  /** What each item comes to. */
  function Outcomes(b: Bridges, items: seq<Item>): (done: seq<Done>)
    ensures |done| == |items| && forall i :: 0 <= i < |items| ==> done[i] == RunOne(b, items[i])
  {
    seq(|items|, i requires 0 <= i < |items| => RunOne(b, items[i]))
  }

  /** The table as the readers leave it, written in the order they finish. */
  function Table(done: seq<Done>, order: seq<nat>): map<Key, string>
    requires Within(order, |done|)
  {
    if order == [] then map[]
    else
      var before, last := Table(done, order[..|order| - 1]), done[order[|order| - 1]];
      if last.note == "" then before else before[KeyOf(last.row) := last.note]
  }

  /** Reading on the pool. Each worker fills its own slot of the results; all of them write the one table of notes,
      as they finish. */
  method RunAll(b: Bridges, items: seq<Item>, order: seq<nat>) returns (rows: seq<Row>, notes: map<Key, string>)
    requires Schedule(order, |items|)
    ensures rows == RowsIn(Outcomes(b, items))
    ensures notes == Table(Outcomes(b, items), order)
  {
    var slots := new Row[|items|](_ => Row(Null, Null, Err("")));
    notes := map[];
    ghost var all := Outcomes(b, items);
    for step := 0 to |order|
      invariant Filled(slots[..], RowsIn(all), order, step)
      invariant Within(order[..step], |all|) && notes == Table(all, order[..step])
    {
      TableStep(all, order, step);
      FillsOne(slots[..], RowsIn(all), order, step);
      var done := RunOne(b, items[order[step]]);
      slots[order[step]] := done.row;
      if done.note != "" {
        notes := notes[KeyOf(done.row) := done.note];
      }
    }
    FillsAll(slots[..], RowsIn(all), order);
    assert order[..|order|] == order;
    rows := slots[..];
  }

  lemma TableStep(done: seq<Done>, order: seq<nat>, step: nat)
    requires Within(order, |done|) && step < |order|
    ensures Within(order[..step], |done|) && Within(order[..step + 1], |done|)
    ensures var before, last := Table(done, order[..step]), done[order[step]];
            Table(done, order[..step + 1]) == if last.note == "" then before else before[KeyOf(last.row) := last.note]
  {
    assert order[..step + 1][..step] == order[..step];
  }

  /** `page_notes.get(key)`: absent reads as no note. */
  function Lookup(notes: map<Key, string>, key: Key): string {
    if key in notes then notes[key] else ""
  }

  /** Whatever is found was left by some read of that key; nothing is found only if no read of it left anything. */
  lemma {:induction false} TableHoldsSomeNote(done: seq<Done>, order: seq<nat>, key: Key)
    requires Within(order, |done|)
    ensures var found := Lookup(Table(done, order), key);
            && (found != "" ==> exists i :: 0 <= i < |done| && i in order && KeyOf(done[i].row) == key && done[i].note == found)
            && (found == "" ==> forall i :: 0 <= i < |done| && i in order && KeyOf(done[i].row) == key ==> done[i].note == "")
  {
    if order != [] {
      var before, last := order[..|order| - 1], order[|order| - 1];
      TableHoldsSomeNote(done, before, key);
      assert forall i :: i in order <==> i in before || i == last;
    }
  }

  // ----- the sequential survey -----

  function ErrorRow(b: Bridges, iid: Id, error: string): Row {
    Row(iid, Null, Err(b.respell(iid, error)))
  }

  /** An instance that could not be planned is one row, which names it and no target. */
  lemma ProblemIsOneRow(b: Bridges, mode: Mode, k: nat, iid: Id)
    requires PlanInstance(b, mode, k, iid).Problem?
    ensures |RowsOf(b, mode, k, iid)| == 1
    ensures var row := RowsOf(b, mode, k, iid)[0].row; row.instance == iid && row.target.Null? && row.outcome.Err?
  {
  }

  /** The reads of an instance's plan from its target in place `j` on. */
  function ReadEach(b: Bridges, k: nat, j: nat, iid: Id, selectors: seq<Id>): seq<Done>
    decreases |selectors|
  {
    if selectors == [] then []
    else [RunOne(b, Item(Place(k, j), iid, selectors[0]))] + ReadEach(b, k, j + 1, iid, selectors[1..])
  }

  /** One instance's rows, each with the note its page calls for, asked alone. */
  function RowsOf(b: Bridges, mode: Mode, k: nat, iid: Id): seq<Done> {
    match PlanInstance(b, mode, k, iid)
    case Problem(e) => [Done(ErrorRow(b, iid, e), "")]
    case Targets(selectors, _) => ReadEach(b, k, 0, iid, selectors)
  }

  /** What each instance gives, one after another from place `k` on. */
  function Each<T>(give: (nat, Id) -> seq<T>, k: nat, iids: seq<Id>): seq<T>
    decreases |iids|
  {
    if iids == [] then [] else give(k, iids[0]) + Each(give, k + 1, iids[1..])
  }

  lemma {:induction false} EachAppend<T(!new)>(give: (nat, Id) -> seq<T>, k: nat, xs: seq<Id>, ys: seq<Id>)
    ensures Each(give, k, xs + ys) == Each(give, k, xs) + Each(give, k + |xs|, ys)
    decreases |xs|
  {
    if xs == [] {
      assert xs + ys == ys;
    } else {
      assert (xs + ys)[1..] == xs[1..] + ys;
      EachAppend(give, k + 1, xs[1..], ys);
      Regroup(give(k, xs[0]), Each(give, k + 1, xs[1..]), Each(give, k + |xs|, ys));
    }
  }

  lemma EachOne<T(!new)>(give: (nat, Id) -> seq<T>, k: nat, iid: Id)
    ensures Each(give, k, [iid]) == give(k, iid)
  {
    assert [iid][1..] == [] && Each(give, k + 1, []) == [];
    assert give(k, iid) + [] == give(k, iid);
  }

  lemma EachStep<T(!new)>(give: (nat, Id) -> seq<T>, iids: seq<Id>, i: nat)
    requires i < |iids|
    ensures Each(give, 0, iids[..i + 1]) == Each(give, 0, iids[..i]) + give(i, iids[i])
  {
    assert iids[..i + 1] == iids[..i] + [iids[i]];
    EachAppend(give, 0, iids[..i], [iids[i]]);
    EachOne(give, i, iids[i]);
  }

  lemma EachAround<T(!new)>(give: (nat, Id) -> seq<T>, before: seq<Id>, iid: Id, after: seq<Id>)
    ensures Each(give, 0, before + [iid] + after) ==
            Each(give, 0, before) + give(|before|, iid) + Each(give, |before| + 1, after)
  {
    EachAppend(give, 0, before + [iid], after);
    EachAppend(give, 0, before, [iid]);
    EachOne(give, |before|, iid);
  }

  function RowsGiven(b: Bridges, mode: Mode): (nat, Id) -> seq<Done> {
    (k: nat, iid: Id) => RowsOf(b, mode, k, iid)
  }

  /** One instance after another from place `k` on, one target after another. */
  function Survey(b: Bridges, mode: Mode, k: nat, iids: seq<Id>): (done: seq<Done>)
    ensures iids == [] ==> done == []
    ensures iids != [] ==> done == RowsOf(b, mode, k, iids[0]) + Survey(b, mode, k + 1, iids[1..])
    decreases |iids|
  {
    Each(RowsGiven(b, mode), k, iids)
  }

  function RowsIn(done: seq<Done>): (rows: seq<Row>)
    ensures |rows| == |done| && forall i :: 0 <= i < |rows| ==> rows[i] == done[i].row
  {
    seq(|done|, i requires 0 <= i < |done| => done[i].row)
  }

  // ----- assembling -----

  datatype Unit = Settled(row: Row) | Work(item: Item)

  function Working(k: nat, j: nat, iid: Id, selectors: seq<Id>): seq<Unit>
    decreases |selectors|
  {
    if selectors == [] then []
    else [Work(Item(Place(k, j), iid, selectors[0]))] + Working(k, j + 1, iid, selectors[1..])
  }

  function UnitsOf(b: Bridges, mode: Mode, k: nat, iid: Id): seq<Unit> {
    match PlanInstance(b, mode, k, iid)
    case Problem(e) => [Settled(ErrorRow(b, iid, e))]
    case Targets(selectors, _) => Working(k, 0, iid, selectors)
  }

  function UnitsGiven(b: Bridges, mode: Mode): (nat, Id) -> seq<Unit> {
    (k: nat, iid: Id) => UnitsOf(b, mode, k, iid)
  }

  function Units(b: Bridges, mode: Mode, k: nat, iids: seq<Id>): (units: seq<Unit>)
    ensures iids == [] ==> units == []
    ensures iids != [] ==> units == UnitsOf(b, mode, k, iids[0]) + Units(b, mode, k + 1, iids[1..])
    decreases |iids|
  {
    Each(UnitsGiven(b, mode), k, iids)
  }

  function ItemsOf(units: seq<Unit>): seq<Item> {
    if units == [] then []
    else ItemsOf(units[..|units| - 1]) + if units[|units| - 1].Work? then [units[|units| - 1].item] else []
  }

  function DoneOf(b: Bridges, u: Unit): Done {
    match u
    case Settled(row) => Done(row, "")
    case Work(item) => RunOne(b, item)
  }

  function AllDone(b: Bridges, units: seq<Unit>): (done: seq<Done>)
    ensures |done| == |units| && forall i :: 0 <= i < |units| ==> done[i] == DoneOf(b, units[i])
  {
    seq(|units|, i requires 0 <= i < |units| => DoneOf(b, units[i]))
  }

  lemma {:induction false} WorkingReadsEach(b: Bridges, k: nat, j: nat, iid: Id, selectors: seq<Id>)
    ensures AllDone(b, Working(k, j, iid, selectors)) == ReadEach(b, k, j, iid, selectors)
    decreases |selectors|
  {
    if selectors != [] {
      WorkingReadsEach(b, k, j + 1, iid, selectors[1..]);
    }
  }

  /** The units, filled in order, are the sequential survey. */
  lemma {:induction false} UnitsAreTheSurvey(b: Bridges, mode: Mode, k: nat, iids: seq<Id>)
    ensures AllDone(b, Units(b, mode, k, iids)) == Survey(b, mode, k, iids)
    decreases |iids|
  {
    if iids != [] {
      UnitsAreTheSurvey(b, mode, k + 1, iids[1..]);
      UnitsOfAreItsRows(b, mode, k, iids[0]);
      AllDoneAppend(b, UnitsOf(b, mode, k, iids[0]), Units(b, mode, k + 1, iids[1..]));
    }
  }

  lemma AllDoneAppend(b: Bridges, us: seq<Unit>, vs: seq<Unit>)
    ensures AllDone(b, us + vs) == AllDone(b, us) + AllDone(b, vs)
  {
  }

  lemma UnitsOfAreItsRows(b: Bridges, mode: Mode, k: nat, iid: Id)
    ensures AllDone(b, UnitsOf(b, mode, k, iid)) == RowsOf(b, mode, k, iid)
  {
    match PlanInstance(b, mode, k, iid)
    case Problem(_) =>
    case Targets(selectors, _) => WorkingReadsEach(b, k, 0, iid, selectors);
  }

  /** The rows put together: a settled unit keeps its slot, the executed reads fill the rest in turn. */
  method Assemble(ghost b: Bridges, units: seq<Unit>, executed: seq<Row>) returns (rows: seq<Row>)
    requires executed == RowsIn(Outcomes(b, ItemsOf(units)))
    ensures rows == RowsIn(AllDone(b, units))
  {
    rows := [];
    var next := 0;
    for i := 0 to |units|
      invariant next == |ItemsOf(units[..i])| && ItemsOf(units[..i]) <= ItemsOf(units)
      invariant |rows| == i && forall j :: 0 <= j < i ==> rows[j] == DoneOf(b, units[j]).row
    {
      assert units[..i + 1][..i] == units[..i];
      ItemsOfPrefix(units, i + 1);
      if units[i].Settled? {
        rows := rows + [units[i].row];
      } else {
        assert ItemsOf(units)[next] == units[i].item;
        rows := rows + [executed[next]];
        next := next + 1;
      }
    }
    assert units[..|units|] == units;
  }

  lemma {:induction false} ItemsOfPrefix(units: seq<Unit>, n: nat)
    requires n <= |units|
    ensures ItemsOf(units[..n]) <= ItemsOf(units)
    decreases |units|
  {
    if n == |units| {
      assert units[..n] == units;
    } else {
      assert units[..|units| - 1][..n] == units[..n];
      ItemsOfPrefix(units[..|units| - 1], n);
    }
  }

  /** The instances surveyed target by target without being asked to. */
  function SurveyedInFull(b: Bridges, mode: Mode, iids: seq<Id>): seq<Id> {
    if iids == [] then []
    else
      var n := |iids| - 1;
      var plan := PlanInstance(b, mode, n, iids[n]);
      SurveyedInFull(b, mode, iids[..n]) + if plan.Targets? && plan.surveyed then [iids[n]] else []
  }

  lemma SurveyedStep(b: Bridges, mode: Mode, iids: seq<Id>, i: nat)
    requires i < |iids|
    ensures var plan := PlanInstance(b, mode, i, iids[i]);
            SurveyedInFull(b, mode, iids[..i + 1]) ==
            SurveyedInFull(b, mode, iids[..i]) + if plan.Targets? && plan.surveyed then [iids[i]] else []
  {
    assert iids[..i + 1][..i] == iids[..i];
  }

  lemma UnitsStep(b: Bridges, mode: Mode, iids: seq<Id>, i: nat)
    requires i < |iids|
    ensures Units(b, mode, 0, iids[..i + 1]) == Units(b, mode, 0, iids[..i]) + UnitsOf(b, mode, i, iids[i])
  {
    EachStep(UnitsGiven(b, mode), iids, i);
  }

  /** Flattening the plans, in instance order. */
  method Flatten(b: Bridges, mode: Mode, iids: seq<Id>, plans: seq<Plan>) returns (units: seq<Unit>, expanded: seq<Id>)
    requires |plans| == |iids| && forall i :: 0 <= i < |iids| ==> plans[i] == PlanInstance(b, mode, i, iids[i])
    ensures units == Units(b, mode, 0, iids) && expanded == SurveyedInFull(b, mode, iids)
  {
    units, expanded := [], [];
    for i := 0 to |plans|
      invariant units == Units(b, mode, 0, iids[..i]) && expanded == SurveyedInFull(b, mode, iids[..i])
    {
      UnitsStep(b, mode, iids, i);
      SurveyedStep(b, mode, iids, i);
      match plans[i] {
        case Problem(e) =>
          units := units + [Settled(ErrorRow(b, iids[i], e))];
        case Targets(selectors, surveyed) =>
          if surveyed {
            expanded := expanded + [iids[i]];
          }
          units := units + Working(i, 0, iids[i], selectors);
      }
    }
    assert iids[..|plans|] == iids;
  }

  predicate Read(r: Row) { r.outcome.Ok? }

  function OkCount(rows: seq<Row>): nat {
    if rows == [] then 0 else OkCount(rows[..|rows| - 1]) + if Read(rows[|rows| - 1]) then 1 else 0
  }

  lemma {:induction false} SomeRowIsOk(rows: seq<Row>)
    ensures OkCount(rows) > 0 <==> exists r :: r in rows && Read(r)
  {
    if rows != [] {
      SomeRowIsOk(rows[..|rows| - 1]);
      assert forall r :: r in rows <==> r in rows[..|rows| - 1] || r == rows[|rows| - 1];
    }
  }

  function ModeOf(fanInstances: bool, fanTargets: bool, explicit: bool): (mode: Mode)
    ensures mode.AllTargets? <==> fanTargets
    ensures mode.AllInstances? <==> fanInstances && !fanTargets && !explicit
  {
    if fanTargets then AllTargets else if fanInstances && !explicit then AllInstances else ExplicitTarget
  }

  datatype Report = Report(rows: seq<Row>, okCount: nat, expanded: seq<Id>, printed: seq<(Key, string)>, exit: nat)

  /** The notes printed, row by row, as the table answers. */
  function Printed(rows: seq<Row>, notes: map<Key, string>): seq<(Key, string)> {
    if rows == [] then []
    else
      var key := KeyOf(rows[|rows| - 1]);
      Printed(rows[..|rows| - 1], notes) + if Lookup(notes, key) != "" then [(key, Lookup(notes, key))] else []
  }

  /** The notes the rows themselves call for. */
  function OwnNotes(done: seq<Done>): seq<(Key, string)> {
    if done == [] then []
    else
      var last := done[|done| - 1];
      OwnNotes(done[..|done| - 1]) + if last.note != "" then [(KeyOf(last.row), last.note)] else []
  }

  method Print(rows: seq<Row>, notes: map<Key, string>) returns (printed: seq<(Key, string)>)
    ensures printed == Printed(rows, notes)
  {
    printed := [];
    for i := 0 to |rows|
      invariant printed == Printed(rows[..i], notes)
    {
      assert rows[..i + 1][..i] == rows[..i];
      var key := KeyOf(rows[i]);
      if key in notes && notes[key] != "" {
        printed := printed + [(key, notes[key])];
      }
    }
    assert rows[..|rows|] == rows;
  }

  /** What a survey of these instances reports when its workers finish as `finish` has them: the rows of a sequential
      survey, an exit of 0 exactly when some row was read, and the notes the shared table then holds. */
  predicate Reports(b: Bridges, mode: Mode, iids: seq<Id>, finish: nat -> seq<nat>, report: Report) {
    var items := ItemsOf(Units(b, mode, 0, iids));
    && report.rows == RowsIn(Survey(b, mode, 0, iids))
    && report.okCount == OkCount(report.rows)
    && report.expanded == SurveyedInFull(b, mode, iids)
    && Schedule(finish(|items|), |items|)
    && report.printed == Printed(report.rows, Table(Outcomes(b, items), finish(|items|)))
    && (report.exit == 0 <==> exists row :: row in report.rows && Read(row))
    && (report.exit == 0 || report.exit == 2)
  }

  /** Plan, execute, assemble. */
  method SurveyAll(b: Bridges, mode: Mode, iids: seq<Id>, finish: nat -> seq<nat>) returns (report: Report)
    requires forall n: nat :: Schedule(finish(n), n)
    ensures Reports(b, mode, iids, finish, report)
  {
    var plans := PlanAll(b, mode, iids, finish(|iids|));
    var units, expanded := Flatten(b, mode, iids, plans);
    var items := ItemsOf(units);
    var executed, notes := RunAll(b, items, finish(|items|));
    var rows := Assemble(b, units, executed);
    UnitsAreTheSurvey(b, mode, 0, iids);
    var printed := Print(rows, notes);
    SomeRowIsOk(rows);
    var okCount := OkCount(rows);
    report := Report(rows, okCount, expanded, printed, if okCount > 0 then 0 else 2);
  }

  /** `_fanout_call`, from the instances to survey on, for every order the planning and the reading workers finish in. */
  method Fanout(b: Bridges, fanInstances: bool, fanTargets: bool, explicit: bool, running: seq<Id>, own: Id,
                finish: nat -> seq<nat>) returns (r: Result<Report, string>)
    requires forall n: nat :: Schedule(finish(n), n)
    ensures r.Err? <==> fanInstances && running == []
    ensures r.Ok? ==> Reports(b, ModeOf(fanInstances, fanTargets, explicit), if fanInstances then running else [own],
                              finish, r.value)
  {
    if fanInstances && running == [] {
      return Err("--all-instances: no bridge instances are running");
    }
    var report := SurveyAll(b, ModeOf(fanInstances, fanTargets, explicit), if fanInstances then running else [own], finish);
    r := Ok(report);
  }

  // ----- what an instance is asked -----

  /** The ids a listing gives: of each object its target id, or its selector when it states none. */
  lemma {:induction false} IdsListed(items: seq<Value>)
    requires forall i :: 0 <= i < |items| ==> items[i].Obj?
    ensures |IdsOf(items)| == |items|
    ensures forall i :: 0 <= i < |items| ==>
              IdsOf(items)[i] == if Truthy(Get(items[i], "target_id")) then Get(items[i], "target_id") else Get(items[i], "selector")
  {
    if items != [] {
      IdsListed(items[1..]);
    }
  }

  lemma {:induction false} IdsSkipTheRest(items: seq<Value>, more: seq<Value>)
    requires forall i :: 0 <= i < |more| ==> !more[i].Obj?
    ensures IdsOf(items + more) == IdsOf(items)
  {
    if items == [] {
      assert items + more == more;
      if more != [] {
        IdsSkipTheRest([], more[1..]);
        assert [] + more[1..] == more[1..];
      }
    } else {
      assert (items + more)[1..] == items[1..] + more;
      IdsSkipTheRest(items[1..], more);
    }
  }

  /** The row and note of one read of a given target. */
  predicate ReportsRead(b: Bridges, p: Place, iid: Id, t: Id, done: Done) {
    match b.read(p, iid, t)
    case Answered(v, note) => done == Done(Row(iid, t, Ok(v)), note)
    case Refused(e) => done == Done(Row(iid, t, Err(b.respell(iid, e))), "")
  }

  /** The row and note of a read whose target is resolved first; a refusal of either states no target. */
  predicate ReportsResolved(b: Bridges, p: Place, iid: Id, done: Done) {
    match b.resolve(p, iid)
    case Err(e) => done == Done(Row(iid, Null, Err(b.respell(iid, e))), "")
    case Ok(t) =>
      match b.read(p, iid, t)
      case Answered(v, note) => done == Done(Row(iid, t, Ok(v)), note)
      case Refused(e) => done == Done(Row(iid, Null, Err(b.respell(iid, e))), "")
  }

  lemma {:induction false} EachReadIsReported(b: Bridges, k: nat, j: nat, iid: Id, selectors: seq<Id>)
    ensures var done := ReadEach(b, k, j, iid, selectors);
            && |done| == |selectors|
            && forall i :: 0 <= i < |done| ==>
                 if selectors[i] == Null then ReportsResolved(b, Place(k, j + i), iid, done[i])
                 else ReportsRead(b, Place(k, j + i), iid, selectors[i], done[i])
    decreases |selectors|
  {
    if selectors != [] {
      EachReadIsReported(b, k, j + 1, iid, selectors[1..]);
      forall i | 1 <= i < |selectors|
        ensures selectors[i] == selectors[1..][i - 1]
        ensures ReadEach(b, k, j, iid, selectors)[i] == ReadEach(b, k, j + 1, iid, selectors[1..])[i - 1]
      {
      }
    }
  }

  /** Which targets of one instance are asked for, by how the survey was asked. Every target listed, in order, on
      `--all-targets`, and on `--all-instances` if each states an id; an unlisted or nameless target is resolved
      normally there, and a failed or empty listing is a problem row only on `--all-targets`. */
  lemma WhatIsAsked(b: Bridges, mode: Mode, k: nat, iid: Id)
    ensures var listed, done := b.listTargets(k, iid), RowsOf(b, mode, k, iid);
            var ids := if listed.Ok? && listed.value.Arr? then IdsOf(listed.value.items) else [];
            var every := ids != [] && (mode.AllTargets? || (mode.AllInstances? && Null !in ids));
            && (every ==>
                  |done| == |ids|
                  && forall i :: 0 <= i < |ids| ==>
                       if ids[i] == Null then ReportsResolved(b, Place(k, i), iid, done[i])
                       else ReportsRead(b, Place(k, i), iid, ids[i], done[i]))
            && (!every ==> |done| == 1)
            && (!every && !mode.AllTargets? ==> ReportsResolved(b, Place(k, 0), iid, done[0]))
            && (!every && mode.AllTargets? && listed.Ok? ==>
                  done[0].row.outcome == Err(b.respell(iid, if listed.value.Arr? then "no targets open"
                                                            else "list targets: " + MALFORMED)))
            && (!every && mode.AllTargets? ==>
                  done[0].note == "" && !Read(done[0].row) && done[0].row.instance == iid
                  && (listed.Err? ==> done[0].row.outcome == Err(b.respell(iid, "list targets: " + listed.error))))
            && (PlanInstance(b, mode, k, iid).Targets? && PlanInstance(b, mode, k, iid).surveyed <==>
                  mode.AllInstances? && every && |ids| > 1)
  {
    match PlanInstance(b, mode, k, iid)
    case Problem(_) =>
    case Targets(selectors, _) => EachReadIsReported(b, k, 0, iid, selectors);
  }

  // ----- whose note a row finds -----

  /** Rows that share a key share their note. */
  predicate NotesAgree(done: seq<Done>) {
    forall i, j :: 0 <= i < |done| && 0 <= j < |done| && KeyOf(done[i].row) == KeyOf(done[j].row) ==>
      done[i].note == done[j].note
  }

  predicate EachFindsItsOwn(done: seq<Done>, notes: map<Key, string>) {
    forall i :: 0 <= i < |done| ==> Lookup(notes, KeyOf(done[i].row)) == done[i].note
  }

  /** The item of a unit that works is among the items, and each item is some unit's. */
  lemma {:induction false} ItemsAreUnits(units: seq<Unit>, item: Item)
    ensures item in ItemsOf(units) <==> Work(item) in units
  {
    if units != [] {
      var before, last := units[..|units| - 1], units[|units| - 1];
      ItemsAreUnits(before, item);
      assert Work(item) in units <==> Work(item) in before || Work(item) == last;
    }
  }

  /** Every row finds its own note in the shared table, whatever the order the readers finished in, exactly when rows
      that share an instance and a target call for the same note. */
  lemma NotesGoToTheirRows(b: Bridges, units: seq<Unit>, order: seq<nat>)
    requires Schedule(order, |ItemsOf(units)|)
    ensures EachFindsItsOwn(AllDone(b, units), Table(Outcomes(b, ItemsOf(units)), order)) <==> NotesAgree(AllDone(b, units))
  {
    var done, items, notes := AllDone(b, units), ItemsOf(units), Table(Outcomes(b, ItemsOf(units)), order);
    if NotesAgree(done) {
      forall i | 0 <= i < |done|
        ensures Lookup(notes, KeyOf(done[i].row)) == done[i].note
      {
        FoundIsOwn(b, units, order, i);
      }
    }
  }

  lemma FoundIsOwn(b: Bridges, units: seq<Unit>, order: seq<nat>, i: nat)
    requires Schedule(order, |ItemsOf(units)|) && i < |units| && NotesAgree(AllDone(b, units))
    ensures Lookup(Table(Outcomes(b, ItemsOf(units)), order), KeyOf(DoneOf(b, units[i]).row)) == DoneOf(b, units[i]).note
  {
    var done, items := AllDone(b, units), ItemsOf(units);
    var key := KeyOf(done[i].row);
    var all := Outcomes(b, items);
    TableHoldsSomeNote(all, order, key);
    if Lookup(Table(all, order), key) != "" {
      var n :| 0 <= n < |all| && n in order && KeyOf(all[n].row) == key && all[n].note == Lookup(Table(all, order), key);
      ItemsAreUnits(units, items[n]);
      var j :| 0 <= j < |units| && units[j] == Work(items[n]);
      assert done[j] == RunOne(b, items[n]);
    } else if units[i].Work? {
      ItemsAreUnits(units, units[i].item);
      var n :| 0 <= n < |items| && items[n] == units[i].item;
      ScheduleReachesAll(order, |items|, n);
    }
  }

  lemma {:induction false} PrintedAreOwn(done: seq<Done>, notes: map<Key, string>)
    requires EachFindsItsOwn(done, notes)
    ensures Printed(RowsIn(done), notes) == OwnNotes(done)
  {
    if done != [] {
      var before := done[..|done| - 1];
      assert RowsIn(done)[..|done| - 1] == RowsIn(before);
      assert EachFindsItsOwn(before, notes) by {
        assert forall i :: 0 <= i < |before| ==> before[i] == done[i];
      }
      PrintedAreOwn(before, notes);
    }
  }

  predicate Distinct(ids: seq<Id>) {
    forall i, j :: 0 <= i < j < |ids| ==> ids[i] != ids[j]
  }

  /** Nothing is asked twice: instances and each plan's targets are listed once, and a target is left to normal
      resolution only when it is the plan's one. */
  predicate NothingAskedTwice(b: Bridges, mode: Mode, k: nat, iids: seq<Id>) {
    && Distinct(iids)
    && forall n :: 0 <= n < |iids| ==> PlanIsPlain(PlanInstance(b, mode, k + n, iids[n]))
  }

  predicate PlanIsPlain(plan: Plan) {
    plan.Targets? ==> |plan.selectors| <= 1 || (Distinct(plan.selectors) && Null !in plan.selectors)
  }

  predicate KeysDiffer(done: seq<Done>) {
    forall i, j :: 0 <= i < j < |done| ==> KeyOf(done[i].row) != KeyOf(done[j].row)
  }

  lemma {:induction false} TargetsAreOwn(b: Bridges, k: nat, j: nat, iid: Id, selectors: seq<Id>)
    requires Null !in selectors
    ensures var done := ReadEach(b, k, j, iid, selectors);
            |done| == |selectors| && forall i :: 0 <= i < |done| ==> KeyOf(done[i].row) == (iid, selectors[i])
    decreases |selectors|
  {
    if selectors != [] {
      TargetsAreOwn(b, k, j + 1, iid, selectors[1..]);
    }
  }

  lemma {:induction false} InstanceIsOwn(b: Bridges, k: nat, j: nat, iid: Id, selectors: seq<Id>)
    ensures var done := ReadEach(b, k, j, iid, selectors);
            |done| == |selectors| && forall i :: 0 <= i < |done| ==> done[i].row.instance == iid
    decreases |selectors|
  {
    if selectors != [] {
      InstanceIsOwn(b, k, j + 1, iid, selectors[1..]);
    }
  }

  /** An instance is answered by at least one row, all of them its own, and a plain plan's under different keys. */
  lemma RowsOfInstance(b: Bridges, mode: Mode, k: nat, iid: Id)
    ensures RowsOf(b, mode, k, iid) != []
    ensures forall i :: 0 <= i < |RowsOf(b, mode, k, iid)| ==> RowsOf(b, mode, k, iid)[i].row.instance == iid
    ensures PlanIsPlain(PlanInstance(b, mode, k, iid)) ==> KeysDiffer(RowsOf(b, mode, k, iid))
  {
    match PlanInstance(b, mode, k, iid)
    case Problem(_) =>
    case Targets(selectors, _) =>
      InstanceIsOwn(b, k, 0, iid, selectors);
      if Null !in selectors {
        TargetsAreOwn(b, k, 0, iid, selectors);
      }
  }

  lemma {:induction false} SurveyInstances(b: Bridges, mode: Mode, k: nat, iids: seq<Id>)
    ensures forall i :: 0 <= i < |Survey(b, mode, k, iids)| ==> Survey(b, mode, k, iids)[i].row.instance in iids
    decreases |iids|
  {
    if iids != [] {
      RowsOfInstance(b, mode, k, iids[0]);
      SurveyInstances(b, mode, k + 1, iids[1..]);
    }
  }

  lemma {:induction false} KeysOfSurveyDiffer(b: Bridges, mode: Mode, k: nat, iids: seq<Id>)
    requires NothingAskedTwice(b, mode, k, iids)
    ensures KeysDiffer(Survey(b, mode, k, iids))
    decreases |iids|
  {
    if iids != [] {
      var first, rest := RowsOf(b, mode, k, iids[0]), Survey(b, mode, k + 1, iids[1..]);
      AskedOnceLater(b, mode, k, iids);
      RowsOfInstance(b, mode, k, iids[0]);
      SurveyInstances(b, mode, k + 1, iids[1..]);
      KeysOfSurveyDiffer(b, mode, k + 1, iids[1..]);
      forall i, j | 0 <= i < |first| && 0 <= j < |rest|
        ensures first[i].row.instance != rest[j].row.instance
      {
      }
      KeysDifferAcross(first, rest);
    }
  }

  lemma AskedOnceLater(b: Bridges, mode: Mode, k: nat, iids: seq<Id>)
    requires NothingAskedTwice(b, mode, k, iids) && iids != []
    ensures PlanIsPlain(PlanInstance(b, mode, k, iids[0])) && iids[0] !in iids[1..]
    ensures NothingAskedTwice(b, mode, k + 1, iids[1..])
  {
    assert PlanInstance(b, mode, k + 0, iids[0]) == PlanInstance(b, mode, k, iids[0]);
    forall n | 0 <= n < |iids[1..]|
      ensures PlanIsPlain(PlanInstance(b, mode, k + 1 + n, iids[1..][n]))
    {
      assert iids[1..][n] == iids[n + 1] && k + 1 + n == k + (n + 1);
    }
  }

  lemma KeysDifferAcross(first: seq<Done>, rest: seq<Done>)
    requires KeysDiffer(first) && KeysDiffer(rest)
    requires forall i, j :: 0 <= i < |first| && 0 <= j < |rest| ==> first[i].row.instance != rest[j].row.instance
    ensures KeysDiffer(first + rest)
  {
  }

  /** So when nothing is asked twice, what is printed does not depend on who finishes first: each row its page cut
      short is noted once, with its own note, in row order. */
  lemma NotesDoNotDependOnTheSchedule(b: Bridges, mode: Mode, iids: seq<Id>, order: seq<nat>)
    requires NothingAskedTwice(b, mode, 0, iids) && Schedule(order, |ItemsOf(Units(b, mode, 0, iids))|)
    ensures Printed(RowsIn(Survey(b, mode, 0, iids)), Table(Outcomes(b, ItemsOf(Units(b, mode, 0, iids))), order)) ==
            OwnNotes(Survey(b, mode, 0, iids))
  {
    UnitsAreTheSurvey(b, mode, 0, iids);
    KeysOfSurveyDiffer(b, mode, 0, iids);
    OwnNotesArePrinted(b, Units(b, mode, 0, iids), order);
  }

  lemma OwnNotesArePrinted(b: Bridges, units: seq<Unit>, order: seq<nat>)
    requires Schedule(order, |ItemsOf(units)|) && KeysDiffer(AllDone(b, units))
    ensures Printed(RowsIn(AllDone(b, units)), Table(Outcomes(b, ItemsOf(units)), order)) == OwnNotes(AllDone(b, units))
  {
    NotesGoToTheirRows(b, units, order);
    PrintedAreOwn(AllDone(b, units), Table(Outcomes(b, ItemsOf(units)), order));
  }

  /** One instance that lists target `t` twice and cuts the first read's page short. */
  function Repeating(second: Reply): Bridges {
    Bridges(
      (k: nat, iid: Id) => Ok(Arr([Obj(map["target_id" := Str("t")]), Obj(map["target_id" := Str("t")])])),
      (p: Place, iid: Id) => Err(""),
      (p: Place, iid: Id, t: Id) => if p.target == 0 then Answered(Null, "first") else second,
      (iid: Id, e: string) => e)
  }

  lemma RepeatingPlan(second: Reply, iid: Id)
    ensures PlanInstance(Repeating(second), AllTargets, 0, iid) == Targets([Str("t"), Str("t")], false)
  {
    var t := Obj(map["target_id" := Str("t")]);
    assert Get(t, "target_id") == Str("t") && IdOf(t) == Str("t");
    assert [t, t][1..] == [t] && [t][1..] == [];
    assert IdsOf([t]) == [Str("t")] + IdsOf([]);
    assert IdsOf([t, t]) == [Str("t")] + IdsOf([t]);
  }

  lemma RepeatingUnits(second: Reply, iid: Id)
    ensures var first, other := Item(Place(0, 0), iid, Str("t")), Item(Place(0, 1), iid, Str("t"));
            && Units(Repeating(second), AllTargets, 0, [iid]) == [Work(first), Work(other)]
            && ItemsOf([Work(first), Work(other)]) == [first, other]
  {
    var first, other := Work(Item(Place(0, 0), iid, Str("t"))), Work(Item(Place(0, 1), iid, Str("t")));
    RepeatingPlan(second, iid);
    WorkingTwice(iid, Str("t"));
    assert [iid][1..] == [] && [first, other] + [] == [first, other];
    assert [first, other][..1] == [first] && [first][..0] == [];
    assert ItemsOf([first]) == ItemsOf([]) + [first.item];
  }

  lemma WorkingTwice(iid: Id, t: Id)
    ensures Working(0, 0, iid, [t, t]) == [Work(Item(Place(0, 0), iid, t)), Work(Item(Place(0, 1), iid, t))]
  {
    var selectors := [t, t];
    assert selectors[1..] == [t] && [t][1..] == [];
    assert Working(0, 1, iid, [t]) == [Work(Item(Place(0, 1), iid, t))] + Working(0, 2, iid, []);
  }

  function TwoReads(iid: Id): seq<Item> {
    [Item(Place(0, 0), iid, Str("t")), Item(Place(0, 1), iid, Str("t"))]
  }

  /** A target listed twice, read well once and refused once: the row that failed finds the other's note, whichever
      read finishes first. */
  lemma FailedRowFindsANote(iid: Id, order: seq<nat>)
    requires Schedule(order, 2)
    ensures var b := Repeating(Refused("gone"));
            var done := AllDone(b, Units(b, AllTargets, 0, [iid]));
            && |done| == 2 && !Read(done[1].row)
            && Lookup(Table(Outcomes(b, TwoReads(iid)), order), KeyOf(done[1].row)) == "first"
  {
    RepeatingUnits(Refused("gone"), iid);
    TwoStepTable(Outcomes(Repeating(Refused("gone")), TwoReads(iid)), order);
  }

  /** Read well twice, with different notes: who finishes last decides which note both rows print. */
  lemma LastReaderDecidesTheNote(iid: Id)
    ensures var done := Outcomes(Repeating(Answered(Null, "second")), TwoReads(iid));
            && Lookup(Table(done, [0, 1]), (iid, Str("t"))) == "second"
            && Lookup(Table(done, [1, 0]), (iid, Str("t"))) == "first"
  {
    var done := Outcomes(Repeating(Answered(Null, "second")), TwoReads(iid));
    TwoStepTable(done, [0, 1]);
    TwoStepTable(done, [1, 0]);
  }

  lemma TwoStepTable(done: seq<Done>, order: seq<nat>)
    requires |done| == 2 && Schedule(order, 2)
    ensures var one, two := done[order[0]], done[order[1]];
            var start: map<Key, string> := if one.note == "" then map[] else map[KeyOf(one.row) := one.note];
            Table(done, order) == if two.note == "" then start else start[KeyOf(two.row) := two.note]
  {
    assert order[..1] == [order[0]] && order[..1][..0] == [];
    assert Table(done, order[..1][..0]) == map[];
  }

  // ----- isolation -----

  /** Bridges that answer alike the calls made for one instance in one place. */
  ghost predicate AgreeOn(b: Bridges, c: Bridges, k: nat, iid: Id) {
    && b.listTargets(k, iid) == c.listTargets(k, iid)
    && (forall j: nat :: b.resolve(Place(k, j), iid) == c.resolve(Place(k, j), iid))
    && (forall j: nat, t :: b.read(Place(k, j), iid, t) == c.read(Place(k, j), iid, t))
    && (forall e :: b.respell(iid, e) == c.respell(iid, e))
  }

  lemma {:induction false} ReadEachAgrees(b: Bridges, c: Bridges, k: nat, j: nat, iid: Id, selectors: seq<Id>)
    requires AgreeOn(b, c, k, iid)
    ensures ReadEach(b, k, j, iid, selectors) == ReadEach(c, k, j, iid, selectors)
    decreases |selectors|
  {
    if selectors != [] {
      ReadEachAgrees(b, c, k, j + 1, iid, selectors[1..]);
    }
  }

  lemma RowsOfAgree(b: Bridges, c: Bridges, mode: Mode, k: nat, iid: Id)
    requires AgreeOn(b, c, k, iid)
    ensures RowsOf(b, mode, k, iid) == RowsOf(c, mode, k, iid)
  {
    match PlanInstance(b, mode, k, iid)
    case Problem(_) =>
    case Targets(selectors, _) => ReadEachAgrees(b, c, k, 0, iid, selectors);
  }

  ghost predicate AgreeFrom(b: Bridges, c: Bridges, k: nat, iids: seq<Id>) {
    forall n :: 0 <= n < |iids| ==> AgreeOn(b, c, k + n, iids[n])
  }

  lemma {:induction false} SurveyAgrees(b: Bridges, c: Bridges, mode: Mode, k: nat, iids: seq<Id>)
    requires AgreeFrom(b, c, k, iids)
    ensures Survey(b, mode, k, iids) == Survey(c, mode, k, iids)
    decreases |iids|
  {
    if iids != [] {
      assert AgreeOn(b, c, k + 0, iids[0]);
      RowsOfAgree(b, c, mode, k, iids[0]);
      forall n | 0 <= n < |iids[1..]|
        ensures AgreeOn(b, c, k + 1 + n, iids[1..][n])
      {
        assert AgreeOn(b, c, k + (n + 1), iids[n + 1]);
      }
      SurveyAgrees(b, c, mode, k + 1, iids[1..]);
    }
  }

  /** Whatever one instance's bridge does, every other instance's rows are the same and stand in the same place. */
  lemma OneInstanceCannotDisturbTheRest(b: Bridges, c: Bridges, mode: Mode, before: seq<Id>, iid: Id, after: seq<Id>)
    requires AgreeFrom(b, c, 0, before) && AgreeFrom(b, c, |before| + 1, after)
    ensures Survey(c, mode, 0, before + [iid] + after) ==
            Survey(b, mode, 0, before) + RowsOf(c, mode, |before|, iid) + Survey(b, mode, |before| + 1, after)
  {
    SurveyAgrees(b, c, mode, 0, before);
    SurveyAgrees(b, c, mode, |before| + 1, after);
    EachAround(RowsGiven(c, mode), before, iid, after);
  }
}
