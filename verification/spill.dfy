/** Spill retention: which day directories go, by age and by size, and what a sweep reports. */
module Spill {
  import opened Json

  /** Days are ordinals of the calendar, from 1. */
  type Ordinal = nat

  // ----- which entries are days -----

  /** What one name under the spill root turns out to be. */
  datatype Kind = Symlink | Unresolvable | Outside | NotADirectory | Directory

  datatype Entry = Entry(name: string, kind: Kind, size: nat, files: nat)

  datatype Calendar = Calendar(parse: string -> Option<Ordinal>, format: Ordinal -> string)

  datatype Day = Day(entry: string, day: Ordinal, size: nat, files: nat)

  datatype Reason = NonCanonical | IsSymlink | OutsideRoot | NoDirectory

  datatype Refusal = Refusal(entry: string, reason: Reason)

  /** A name this writer could have made: formatting the day it parses as gives the name back. */
  predicate Canonical(cal: Calendar, name: string) {
    cal.parse(name).Some? && cal.format(cal.parse(name).value) == name
  }

  predicate Eligible(cal: Calendar, e: Entry) {
    Canonical(cal, e.name) && e.kind == Directory
  }

  function DayOf(cal: Calendar, e: Entry): Day
    requires cal.parse(e.name).Some?
  {
    Day(e.name, cal.parse(e.name).value, e.size, e.files)
  }

  function Found(cal: Calendar, entries: seq<Entry>): (days: seq<Day>)
  {
    if entries == [] then []
    else
      var last := entries[|entries| - 1];
      Found(cal, entries[..|entries| - 1]) + if Eligible(cal, last) then [DayOf(cal, last)] else []
  }

  /** `_spill_day_entries`: every day-shaped name is either found or refused with its reason; a name that
      parses as no day is left alone in silence. */
  method SpillDayEntries(cal: Calendar, entries: seq<Entry>) returns (found: seq<Day>, skipped: seq<Refusal>)
    ensures found == Found(cal, entries)
    ensures forall r :: r in skipped <==> exists k :: 0 <= k < |entries| && Refused(cal, entries[k], r)
  {
    found, skipped := [], [];
    for i := 0 to |entries|
      invariant found == Found(cal, entries[..i])
      invariant forall r :: r in skipped <==> exists k :: 0 <= k < i && Refused(cal, entries[k], r)
    {
      var e := entries[i];
      assert entries[..i + 1][..i] == entries[..i];
      if cal.parse(e.name).Some? {
        if cal.format(cal.parse(e.name).value) != e.name {
          skipped := skipped + [Refusal(e.name, NonCanonical)];
        } else if e.kind == Symlink {
          skipped := skipped + [Refusal(e.name, IsSymlink)];
        } else if e.kind == Unresolvable || e.kind == Outside {
          skipped := skipped + [Refusal(e.name, OutsideRoot)];
        } else if e.kind == NotADirectory {
          skipped := skipped + [Refusal(e.name, NoDirectory)];
        } else {
          found := found + [DayOf(cal, e)];
        }
      }
    }
    assert entries[..|entries|] == entries;
  }

  predicate Refused(cal: Calendar, e: Entry, r: Refusal) {
    && cal.parse(e.name).Some? && !Eligible(cal, e) && r.entry == e.name
    && r.reason == (if !Canonical(cal, e.name) then NonCanonical
                    else if e.kind == Symlink then IsSymlink
                    else if e.kind == NotADirectory then NoDirectory
                    else OutsideRoot)
  }

  /** Why a day-shaped name is passed over: it is not how its day is written, or it is and what stands there is a link, no
      directory, or not inside the root; and it is passed over for one of these unless it is a directory so named. */
  lemma RefusedFor(cal: Calendar, e: Entry, r: Refusal)
    ensures Refused(cal, e, r) <==>
              && r.entry == e.name && cal.parse(e.name).Some?
              && var named := cal.format(cal.parse(e.name).value) == e.name;
                 match r.reason
                 case NonCanonical => !named
                 case IsSymlink => named && e.kind == Symlink
                 case NoDirectory => named && e.kind == NotADirectory
                 case OutsideRoot => named && e.kind in {Unresolvable, Outside}
  {
  }

  predicate DistinctNames(entries: seq<Entry>) {
    forall i, j :: 0 <= i < j < |entries| ==> entries[i].name != entries[j].name
  }

  predicate DistinctDays(days: seq<Day>) {
    forall i, j :: 0 <= i < j < |days| ==> days[i].day != days[j].day && days[i].entry != days[j].entry
  }

  lemma {:induction false} FoundAreEntries(cal: Calendar, entries: seq<Entry>)
    ensures forall d :: d in Found(cal, entries) ==>
              exists k :: 0 <= k < |entries| && Eligible(cal, entries[k]) && d == DayOf(cal, entries[k])
  {
    if entries != [] {
      FoundAreEntries(cal, entries[..|entries| - 1]);
    }
  }

  /** What is found is what is there: each canonical directory once, under its own name, day, size and files. */
  lemma {:induction false} FoundIsWhatIsThere(cal: Calendar, entries: seq<Entry>, d: Day)
    ensures d in Found(cal, entries) <==>
              exists e :: e in entries && e.kind == Directory && cal.parse(e.name) == Some(d.day)
                          && cal.format(d.day) == e.name
                          && d.entry == e.name && d.size == e.size && d.files == e.files
  {
    if entries != [] {
      var before, last := entries[..|entries| - 1], entries[|entries| - 1];
      FoundIsWhatIsThere(cal, before, d);
      assert forall e :: e in entries <==> e in before || e == last;
    }
  }

  /** No two eligible directories stand for one day: the round trip ties each to its own name. */
  lemma {:induction false} FoundDaysAreDistinct(cal: Calendar, entries: seq<Entry>)
    requires DistinctNames(entries)
    ensures DistinctDays(Found(cal, entries))
  {
    if entries != [] {
      var before, last := entries[..|entries| - 1], entries[|entries| - 1];
      FoundDaysAreDistinct(cal, before);
      FoundAreEntries(cal, before);
      if Eligible(cal, last) {
        forall d | d in Found(cal, before)
          ensures d.day != DayOf(cal, last).day && d.entry != last.name
        {
        }
      }
    }
  }

  // ----- sorting by day -----

  function Insert(d: Day, days: seq<Day>): seq<Day> {
    if days == [] || d.day < days[0].day then [d] + days else [days[0]] + Insert(d, days[1..])
  }

  /** `measured.sort(key=day)`: stable. */
  function Sorted(days: seq<Day>): seq<Day> {
    if days == [] then [] else Insert(days[|days| - 1], Sorted(days[..|days| - 1]))
  }

  /** Strictly oldest first. */
  predicate Ascending(days: seq<Day>) {
    forall i, j :: 0 <= i < j < |days| ==> days[i].day < days[j].day
  }

  lemma {:induction false} InsertAdds(d: Day, days: seq<Day>)
    ensures multiset(Insert(d, days)) == multiset(days) + multiset{d}
  {
    if days != [] && d.day >= days[0].day {
      InsertAdds(d, days[1..]);
      assert days == [days[0]] + days[1..];
    }
  }

  lemma AscendingFrom(d: Day, days: seq<Day>)
    requires Ascending(days) && forall k :: 0 <= k < |days| ==> d.day < days[k].day
    ensures Ascending([d] + days)
  {
  }

  lemma {:induction false} InsertKeeps(d: Day, days: seq<Day>)
    requires Ascending(days) && forall e :: e in days ==> e.day != d.day
    ensures Ascending(Insert(d, days))
  {
    if days != [] && d.day >= days[0].day {
      InsertKeeps(d, days[1..]);
      InsertAdds(d, days[1..]);
      var inserted := Insert(d, days[1..]);
      forall k | 0 <= k < |inserted|
        ensures days[0].day < inserted[k].day
      {
        assert inserted[k] in multiset(inserted);
      }
      AscendingFrom(days[0], inserted);
    } else {
      AscendingFrom(d, days);
    }
  }

  lemma {:induction false} SortedKeeps(days: seq<Day>)
    requires DistinctDays(days)
    ensures Ascending(Sorted(days)) && multiset(Sorted(days)) == multiset(days)
  {
    if days != [] {
      var before, last := days[..|days| - 1], days[|days| - 1];
      SortedKeeps(before);
      forall e | e in Sorted(before)
        ensures e.day != last.day
      {
        assert e in multiset(before);
      }
      InsertKeeps(last, Sorted(before));
      InsertAdds(last, Sorted(before));
      assert days == before + [last];
    }
  }

  // ----- choosing what goes -----

  function Bytes(days: seq<Day>): nat {
    if days == [] then 0 else Bytes(days[..|days| - 1]) + days[|days| - 1].size
  }

  lemma {:induction false} BytesAppend(a: seq<Day>, b: seq<Day>)
    ensures Bytes(a + b) == Bytes(a) + Bytes(b)
  {
    if b == [] {
      assert a + b == a;
    } else {
      assert (a + b)[..|a + b| - 1] == a + b[..|b| - 1];
      BytesAppend(a, b[..|b| - 1]);
    }
  }

  lemma SplitBytes(days: seq<Day>, n: nat)
    requires n <= |days|
    ensures Bytes(days) == Bytes(days[..n]) + Bytes(days[n..])
  {
    BytesAppend(days[..n], days[n..]);
    assert days[..n] + days[n..] == days;
  }

  lemma BytesSnoc(a: seq<Day>, d: Day)
    ensures Bytes(a + [d]) == Bytes(a) + d.size
  {
    assert (a + [d])[..|a|] == a;
  }

  /** The bytes of the days from `k` on. */
  function Held(days: seq<Day>, k: nat): nat
    requires k <= |days|
    decreases |days| - k
  {
    if k == |days| then 0 else days[k].size + Held(days, k + 1)
  }

  lemma FirstKept(days: seq<Day>, k: nat)
    requires k < |days|
    ensures Bytes(days[k..]) == days[k].size + Bytes(days[k + 1..])
  {
    BytesAppend([days[k]], days[k + 1..]);
    assert [days[k]] + days[k + 1..] == days[k..];
    assert Bytes([days[k]]) == days[k].size;
  }

  lemma {:induction false} HeldIsBytes(days: seq<Day>, k: nat)
    requires k <= |days|
    ensures Held(days, k) == Bytes(days[k..])
    decreases |days| - k
  {
    if k < |days| {
      HeldIsBytes(days, k + 1);
      FirstKept(days, k);
    }
  }

  /** The age cutoff: none when retention is off, or wider than the calendar. */
  function Cutoff(today: Ordinal, retention: int): Option<Ordinal> {
    if retention <= 0 || today - retention < 1 then None else Some(today - retention)
  }

  predicate Stale(cutoff: Option<Ordinal>, d: Day) {
    cutoff.Some? && d.day < cutoff.value
  }

  /** A day is stale exactly when more whole days than the window lie between it and today. */
  lemma StaleExactly(today: Ordinal, retention: int, d: Day)
    ensures Stale(Cutoff(today, retention), d) <==> retention > 0 && d.day + retention < today
  {
  }

  function StaleOf(days: seq<Day>, cutoff: Option<Ordinal>): seq<Day> {
    if days == [] then []
    else StaleOf(days[..|days| - 1], cutoff) + if Stale(cutoff, days[|days| - 1]) then [days[|days| - 1]] else []
  }

  /** Sorted by day, the stale days are a prefix. */
  lemma {:induction false} StaleIsPrefix(days: seq<Day>, cutoff: Option<Ordinal>)
    requires Ascending(days)
    ensures var stale := StaleOf(days, cutoff);
            stale <= days && forall k :: 0 <= k < |days| ==> (k < |stale| <==> Stale(cutoff, days[k]))
  {
    if days != [] {
      StaleIsPrefix(days[..|days| - 1], cutoff);
      var n := |days| - 1;
      assert days[..n] + [days[n]] == days;
    }
  }

  /** The result of both passes: how many of the oldest days go, and how many of those are merely stale. */
  datatype Choice = Choice(gone: nat, stale: nat)

  /** Exactly what the two bounds ask for: every stale day; then the oldest survivors, one at a time, until the
      kept days fit the cap or only today and later are left; and no day more than that took. */
  ghost predicate Chosen(days: seq<Day>, cutoff: Option<Ordinal>, maxBytes: Option<int>, today: Ordinal, c: Choice) {
    && c.stale <= c.gone <= |days|
    && (forall k :: 0 <= k < |days| ==> (k < c.stale <==> Stale(cutoff, days[k])))
    && (forall k :: 0 <= k < c.gone ==> days[k].day < today)
    && (maxBytes.None? ==> c.gone == c.stale)
    && (maxBytes.Some? ==>
          && (Held(days, c.gone) <= maxBytes.value || forall k :: c.gone <= k < |days| ==> days[k].day >= today)
          && (c.gone > c.stale ==> Held(days, c.gone - 1) > maxBytes.value))
  }

  /** The oldest `gone` days are what the bounds ask for. */
  ghost predicate Takes(days: seq<Day>, cutoff: Option<Ordinal>, maxBytes: Option<int>, today: Ordinal, gone: nat) {
    exists stale: nat :: Chosen(days, cutoff, maxBytes, today, Choice(gone, stale))
  }

  lemma StaleIsForced(days: seq<Day>, cutoff: Option<Ordinal>, c: nat, d: nat)
    requires c <= |days| && forall k :: 0 <= k < |days| ==> (k < c <==> Stale(cutoff, days[k]))
    requires d <= |days| && forall k :: 0 <= k < |days| ==> (k < d <==> Stale(cutoff, days[k]))
    ensures c == d
  {
    if c < |days| {
      assert !Stale(cutoff, days[c]);
    }
    if d < |days| {
      assert !Stale(cutoff, days[d]);
    }
  }

  lemma {:induction false} HeldShrinks(days: seq<Day>, i: nat, j: nat)
    requires i <= j <= |days|
    ensures Held(days, j) <= Held(days, i)
    decreases j - i
  {
    if i < j {
      HeldShrinks(days, i + 1, j);
    }
  }

  lemma NoFewerGo(days: seq<Day>, cutoff: Option<Ordinal>, maxBytes: Option<int>, today: Ordinal, c: Choice, d: Choice)
    requires Chosen(days, cutoff, maxBytes, today, c) && Chosen(days, cutoff, maxBytes, today, d)
    requires c.stale == d.stale
    ensures c.gone >= d.gone
  {
    if d.gone > 0 {
      assert days[d.gone - 1].day < today;
    }
    if c.gone < d.gone {
      HeldShrinks(days, c.gone, d.gone - 1);
    }
  }

  /** The bounds leave no freedom: two counts that meet them are the same. */
  lemma ChoiceIsUnique(days: seq<Day>, cutoff: Option<Ordinal>, maxBytes: Option<int>, today: Ordinal, m: nat, n: nat)
    requires Takes(days, cutoff, maxBytes, today, m) && Takes(days, cutoff, maxBytes, today, n)
    ensures m == n
  {
    var s: nat :| Chosen(days, cutoff, maxBytes, today, Choice(m, s));
    var t: nat :| Chosen(days, cutoff, maxBytes, today, Choice(n, t));
    var c, d := Choice(m, s), Choice(n, t);
    StaleIsForced(days, cutoff, c.stale, d.stale);
    NoFewerGo(days, cutoff, maxBytes, today, c, d);
    NoFewerGo(days, cutoff, maxBytes, today, d, c);
  }

  /** Whatever the cap, a day older than the window goes; with no cap, nothing else does. */
  lemma AgeDecides(days: seq<Day>, retention: int, maxBytes: Option<int>, today: Ordinal, n: nat)
    requires Takes(days, Cutoff(today, retention), maxBytes, today, n)
    ensures n <= |days|
    ensures forall k :: 0 <= k < |days| && retention > 0 && days[k].day + retention < today ==> k < n
    ensures maxBytes.None? ==> forall k :: 0 <= k < n ==> retention > 0 && days[k].day + retention < today
  {
    forall k | 0 <= k < |days|
      ensures Stale(Cutoff(today, retention), days[k]) <==> retention > 0 && days[k].day + retention < today
    {
      StaleExactly(today, retention, days[k]);
    }
  }

  // ----- naming days by their entries -----

  predicate Named(cal: Calendar, days: seq<Day>) {
    forall d :: d in days ==> cal.parse(d.entry) == Some(d.day)
  }

  function Names(days: seq<Day>): set<string> {
    set d | d in days :: d.entry
  }

  function Those(days: seq<Day>, names: set<string>): seq<Day> {
    if days == [] then []
    else
      var last := days[|days| - 1];
      Those(days[..|days| - 1], names) + if last.entry in names then [last] else []
  }

  function Others(days: seq<Day>, names: set<string>): seq<Day> {
    if days == [] then []
    else
      var last := days[|days| - 1];
      Others(days[..|days| - 1], names) + if last.entry in names then [] else [last]
  }

  lemma {:induction false} PickAll(days: seq<Day>, names: set<string>)
    requires forall k :: 0 <= k < |days| ==> days[k].entry in names
    ensures Those(days, names) == days
  {
    if days != [] {
      PickAll(days[..|days| - 1], names);
    }
  }

  lemma {:induction false} PickNoneAfter(days: seq<Day>, more: seq<Day>, names: set<string>)
    requires forall k :: 0 <= k < |more| ==> more[k].entry !in names
    ensures Those(days + more, names) == Those(days, names)
  {
    if more == [] {
      assert days + more == days;
    } else {
      assert (days + more)[..|days + more| - 1] == days + more[..|more| - 1];
      PickNoneAfter(days, more[..|more| - 1], names);
    }
  }

  lemma {:induction false} LeaveAll(days: seq<Day>, names: set<string>)
    requires forall k :: 0 <= k < |days| ==> days[k].entry in names
    ensures Others(days, names) == []
  {
    if days != [] {
      LeaveAll(days[..|days| - 1], names);
    }
  }

  lemma {:induction false} LeaveNoneAfter(days: seq<Day>, more: seq<Day>, names: set<string>)
    requires forall k :: 0 <= k < |more| ==> more[k].entry !in names
    ensures Others(days + more, names) == Others(days, names) + more
  {
    if more == [] {
      assert days + more == days;
    } else {
      assert (days + more)[..|days + more| - 1] == days + more[..|more| - 1];
      LeaveNoneAfter(days, more[..|more| - 1], names);
    }
  }

  /** Names that only the first `n` days carry pick out exactly those days. */
  lemma NamesPickThePrefix(days: seq<Day>, names: set<string>, n: nat)
    requires n <= |days|
    requires forall k :: 0 <= k < |days| ==> (days[k].entry in names <==> k < n)
    ensures Those(days, names) == days[..n] && Others(days, names) == days[n..]
  {
    var first, rest := days[..n], days[n..];
    assert days == first + rest;
    PickAll(first, names);
    LeaveAll(first, names);
    PickNoneAfter(first, rest, names);
    LeaveNoneAfter(first, rest, names);
  }

  /** In date order, the names of the first `n` days are theirs alone. */
  lemma NamesOfPrefix(cal: Calendar, days: seq<Day>, n: nat)
    requires Ascending(days) && Named(cal, days) && n <= |days|
    ensures forall k :: 0 <= k < |days| ==> (days[k].entry in Names(days[..n]) <==> k < n)
  {
    forall k | 0 <= k < |days|
      ensures days[k].entry in Names(days[..n]) <==> k < n
    {
      if k < n {
        assert days[..n][k] == days[k];
      } else {
        forall d | d in days[..n]
          ensures d.entry != days[k].entry
        {
          assert d in days && days[k] in days;
        }
      }
    }
  }

  lemma {:induction false} SortedOfAscending(days: seq<Day>)
    requires Ascending(days)
    ensures Sorted(days) == days
  {
    if days != [] {
      var before, last := days[..|days| - 1], days[|days| - 1];
      SortedOfAscending(before);
      InsertLast(last, before);
      assert days == before + [last];
    }
  }

  lemma {:induction false} InsertLast(d: Day, days: seq<Day>)
    requires forall e :: e in days ==> e.day < d.day
    ensures Insert(d, days) == days + [d]
  {
    if days != [] {
      assert days[0] in days;
      InsertLast(d, days[1..]);
      assert days == [days[0]] + days[1..];
    }
  }

  /** What a sweep measures: the eligible days, each once, oldest first, each answering to its own name. */
  lemma MeasuredDays(cal: Calendar, entries: seq<Entry>)
    requires DistinctNames(entries)
    ensures var found := Found(cal, entries);
            && Ascending(Sorted(found)) && multiset(Sorted(found)) == multiset(found)
            && Named(cal, found) && Named(cal, Sorted(found))
  {
    var found := Found(cal, entries);
    FoundDaysAreDistinct(cal, entries);
    FoundAreEntries(cal, entries);
    SortedKeeps(found);
    forall d | d in Sorted(found)
      ensures d in found
    {
      assert d in multiset(found);
    }
  }

  // ----- the sweep -----

  /** The size pass at day `i`, with `gone` days chosen, the first `stale` of them by age. */
  predicate Sizing(days: seq<Day>, stale: nat, i: nat, gone: nat, held: int, maxBytes: int, today: Ordinal) {
    && i <= |days| && gone == (if i < stale then stale else i) <= |days| && held == Held(days, gone)
    && (forall k :: 0 <= k < gone ==> days[k].day < today)
    && (gone > stale ==> Held(days, gone - 1) > maxBytes)
  }

  lemma SizingPasses(days: seq<Day>, stale: nat, i: nat, gone: nat, held: int, maxBytes: int, today: Ordinal)
    requires Sizing(days, stale, i, gone, held, maxBytes, today) && i < |days| && held > maxBytes
    ensures i < stale ==> Sizing(days, stale, i + 1, gone, held, maxBytes, today)
    ensures i >= stale && days[i].day < today ==>
              gone == i && Sizing(days, stale, i + 1, i + 1, held - days[i].size, maxBytes, today)
  {
  }

  /** What the size pass leaves: the cap is met or only the live day and later are kept, and no day went for nothing. */
  predicate Sized(days: seq<Day>, stale: nat, gone: nat, maxBytes: int, today: Ordinal) {
    && stale <= gone <= |days| && (forall k :: 0 <= k < gone ==> days[k].day < today)
    && (Held(days, gone) <= maxBytes || forall k :: gone <= k < |days| ==> days[k].day >= today)
    && (gone > stale ==> Held(days, gone - 1) > maxBytes)
  }

  lemma SizingEnds(days: seq<Day>, stale: nat, i: nat, gone: nat, held: int, maxBytes: int, today: Ordinal)
    requires Ascending(days) && Sizing(days, stale, i, gone, held, maxBytes, today) && stale <= |days|
    requires held <= maxBytes || (stale <= i < |days| && days[i].day >= today)
    ensures Sized(days, stale, gone, maxBytes, today)
  {
    if held > maxBytes {
      LaterDays(days, i);
    }
  }

  lemma SizingDone(days: seq<Day>, stale: nat, gone: nat, held: int, maxBytes: int, today: Ordinal)
    requires Sizing(days, stale, |days|, gone, held, maxBytes, today) && stale <= |days|
    ensures Sized(days, stale, gone, maxBytes, today)
  {
  }

  /** The size pass: oldest first, past the stale days, until the cap holds or the live day is reached. */
  method SizePass(measured: seq<Day>, stale: set<string>, candidates: seq<Day>, unstale: nat, maxBytes: int, today: Ordinal)
    returns (taken: seq<Day>)
    requires Ascending(measured) && candidates <= measured
    requires forall k :: 0 <= k < |measured| ==> (measured[k].entry in stale <==> k < |candidates|)
    requires Sizing(measured, |candidates|, 0, |candidates|, unstale, maxBytes, today)
    ensures taken <= measured
    ensures Sized(measured, |candidates|, |taken|, maxBytes, today)
  {
    taken := candidates;
    var held: int := unstale;
    for i := 0 to |measured|
      invariant |taken| <= |measured| && taken <= measured
      invariant Sizing(measured, |candidates|, i, |taken|, held, maxBytes, today)
    {
      if held <= maxBytes {
        SizingEnds(measured, |candidates|, i, |taken|, held, maxBytes, today);
        return;
      }
      SizingPasses(measured, |candidates|, i, |taken|, held, maxBytes, today);
      if measured[i].entry in stale { continue; }
      if measured[i].day >= today {
        SizingEnds(measured, |candidates|, i, |taken|, held, maxBytes, today);
        return;
      }
      taken := taken + [measured[i]];
      held := held - measured[i].size;
    }
    SizingDone(measured, |candidates|, |taken|, held, maxBytes, today);
  }

  lemma LaterDays(days: seq<Day>, i: nat)
    requires Ascending(days) && i < |days|
    ensures forall k :: i <= k < |days| ==> days[k].day >= days[i].day
  {
  }

  /** The age pass: the stale days by name, those days, and the bytes of the others. */
  method AgePass(cal: Calendar, measured: seq<Day>, cutoff: Option<Ordinal>)
    returns (stale: set<string>, candidates: seq<Day>, held: nat)
    requires Ascending(measured) && Named(cal, measured)
    ensures candidates <= measured && held == Held(measured, |candidates|)
    ensures forall k :: 0 <= k < |measured| ==> (measured[k].entry in stale <==> k < |candidates|)
    ensures forall k :: 0 <= k < |measured| ==> (k < |candidates| <==> Stale(cutoff, measured[k]))
  {
    stale := set d | d in measured && Stale(cutoff, d) :: d.entry;
    StaleAreFirst(cal, measured, cutoff, stale);
    candidates := Those(measured, stale);
    held := Bytes(Others(measured, stale));
    HeldIsBytes(measured, |candidates|);
  }

  /** The two passes of `gc_spills`: the stale days, then the oldest survivors until the kept days fit the cap. */
  method Candidates(cal: Calendar, measured: seq<Day>, retention: int, maxBytes: Option<int>, today: Ordinal)
    returns (candidates: seq<Day>)
    requires Ascending(measured) && Named(cal, measured)
    ensures candidates <= measured
    ensures Takes(measured, Cutoff(today, retention), maxBytes, today, |candidates|)
  {
    var cutoff := Cutoff(today, retention);
    var stale, held;
    stale, candidates, held := AgePass(cal, measured, cutoff);
    ghost var aged := |candidates|;
    StaleBeforeToday(today, retention);
    if maxBytes.Some? {
      candidates := SizePass(measured, stale, candidates, held, maxBytes.value, today);
    }
    ChosenWhen(measured, cutoff, maxBytes, today, |candidates|, aged);
    SortedOfAscending(candidates);
    candidates := Sorted(candidates);
  }

  lemma ChosenWhen(days: seq<Day>, cutoff: Option<Ordinal>, maxBytes: Option<int>, today: Ordinal, gone: nat, stale: nat)
    requires stale <= |days| && forall k :: 0 <= k < |days| ==> (k < stale <==> Stale(cutoff, days[k]))
    requires forall d :: Stale(cutoff, d) ==> d.day < today
    requires if maxBytes.Some? then Sized(days, stale, gone, maxBytes.value, today) else gone == stale
    ensures Chosen(days, cutoff, maxBytes, today, Choice(gone, stale))
  {
  }

  lemma StaleBeforeToday(today: Ordinal, retention: int)
    ensures forall d :: Stale(Cutoff(today, retention), d) ==> d.day < today
  {
  }

  lemma StaleAreFirst(cal: Calendar, measured: seq<Day>, cutoff: Option<Ordinal>, stale: set<string>)
    requires Ascending(measured) && Named(cal, measured)
    requires stale == set d | d in measured && Stale(cutoff, d) :: d.entry
    ensures var s := |StaleOf(measured, cutoff)|;
            && s <= |measured| && Those(measured, stale) == measured[..s] && Others(measured, stale) == measured[s..]
            && (forall k :: 0 <= k < |measured| ==> (measured[k].entry in stale <==> k < s))
            && (forall k :: 0 <= k < |measured| ==> (k < s <==> Stale(cutoff, measured[k])))
  {
    StaleNames(measured, cutoff);
    NamesOfPrefix(cal, measured, |StaleOf(measured, cutoff)|);
    NamesPickThePrefix(measured, stale, |StaleOf(measured, cutoff)|);
  }

  lemma StaleNames(measured: seq<Day>, cutoff: Option<Ordinal>)
    requires Ascending(measured)
    ensures var s := |StaleOf(measured, cutoff)|;
            && s <= |measured|
            && (forall k :: 0 <= k < |measured| ==> (k < s <==> Stale(cutoff, measured[k])))
            && (set d | d in measured && Stale(cutoff, d) :: d.entry) == Names(measured[..s])
  {
    StaleIsPrefix(measured, cutoff);
    var s := |StaleOf(measured, cutoff)|;
    forall name
      ensures name in (set d | d in measured && Stale(cutoff, d) :: d.entry) <==> name in Names(measured[..s])
    {
      if d :| d in measured && Stale(cutoff, d) && d.entry == name {
        var k :| 0 <= k < |measured| && measured[k] == d;
        assert measured[..s][k] == d;
      }
      if d :| d in measured[..s] && d.entry == name {
        var k :| 0 <= k < s && measured[..s][k] == d;
        assert measured[k] == d;
      }
    }
  }

  /** How the removal of one directory comes out; `Gone`: a racing peer removed it first. */
  datatype Fate = Removed | Gone | Failed(why: string)

  /** The spill root on disk, by the names still present. */
  class SpillRoot {
    var present: set<string>

    constructor (names: set<string>)
      ensures present == names
    {
      present := names;
    }

    method Rmtree(name: string, fate: Fate)
      modifies this
      ensures present == if fate.Failed? then old(present) else old(present) - {name}
    {
      if !fate.Failed? {
        present := present - {name};
      }
    }
  }

  function Reclaimed(days: seq<Day>, fate: Day -> Fate): seq<Day> {
    if days == [] then []
    else
      var last := days[|days| - 1];
      Reclaimed(days[..|days| - 1], fate) + if fate(last).Failed? then [] else [last]
  }

  datatype Failure = Failure(entry: string, why: string)

  function Failures(days: seq<Day>, fate: Day -> Fate): seq<Failure> {
    if days == [] then []
    else
      var last := days[|days| - 1];
      Failures(days[..|days| - 1], fate) + if fate(last).Failed? then [Failure(last.entry, fate(last).why)] else []
  }

  lemma {:induction false} CandidatesAddUp(days: seq<Day>, fate: Day -> Fate)
    ensures |Reclaimed(days, fate)| + |Failures(days, fate)| == |days|
    ensures Bytes(Reclaimed(days, fate)) <= Bytes(days)
  {
    if days != [] {
      var before, last := days[..|days| - 1], days[|days| - 1];
      CandidatesAddUp(before, fate);
      if fate(last).Failed? {
        assert Reclaimed(days, fate) == Reclaimed(before, fate);
      } else {
        BytesSnoc(Reclaimed(before, fate), last);
      }
    }
  }

  /** Each candidate is reclaimed or is a reported failure, never both, and nothing else is. */
  lemma {:induction false} EveryCandidateIsAccountedFor(days: seq<Day>, fate: Day -> Fate, d: Day)
    ensures d in Reclaimed(days, fate) <==> d in days && !fate(d).Failed?
    ensures d in days && fate(d).Failed? ==> Failure(d.entry, fate(d).why) in Failures(days, fate)
  {
    if days != [] {
      var before, last := days[..|days| - 1], days[|days| - 1];
      EveryCandidateIsAccountedFor(before, fate, d);
      assert d in days <==> d in before || d == last;
    }
  }

  datatype Report = Report(
    dryRun: bool,
    candidates: seq<Day>, candidateBytes: nat,
    removed: seq<Day>, reclaimedBytes: nat,
    keptCount: nat, keptBytes: nat, totalBytes: nat,
    skipped: seq<Refusal>, errors: seq<Failure>)

  /** The removal loop: a dry run walks past; a real one takes every candidate whose removal does not fail. */
  method Remove(root: SpillRoot, candidates: seq<Day>, dryRun: bool, fate: Day -> Fate)
    returns (removed: seq<Day>, errors: seq<Failure>)
    modifies root
    ensures dryRun ==> removed == [] && errors == [] && root.present == old(root.present)
    ensures !dryRun ==> removed == Reclaimed(candidates, fate) && errors == Failures(candidates, fate)
    ensures !dryRun ==> root.present == old(root.present) - Names(removed)
  {
    removed, errors := [], [];
    for i := 0 to |candidates|
      invariant dryRun ==> removed == [] && errors == [] && root.present == old(root.present)
      invariant !dryRun ==> removed == Reclaimed(candidates[..i], fate) && errors == Failures(candidates[..i], fate)
      invariant !dryRun ==> root.present == old(root.present) - Names(removed)
    {
      assert candidates[..i + 1][..i] == candidates[..i];
      if dryRun { continue; }
      root.Rmtree(candidates[i].entry, fate(candidates[i]));
      match fate(candidates[i])
      case Failed(why) =>
        errors := errors + [Failure(candidates[i].entry, why)];
      case _ =>
        NamesSnoc(removed, candidates[i]);
        removed := removed + [candidates[i]];
    }
    assert candidates[..|candidates|] == candidates;
  }

  /** `gc_spills`. The report states the choice the two bounds force, and the disk loses exactly what it says. */
  method GcSpills(root: SpillRoot, cal: Calendar, entries: seq<Entry>, retention: int, maxBytes: Option<int>,
                  dryRun: bool, today: Ordinal, fate: Day -> Fate) returns (report: Report)
    requires DistinctNames(entries)
    modifies root
    ensures var measured := Sorted(Found(cal, entries));
            var n := |report.candidates|;
            && n <= |measured| && report.candidates == measured[..n]
            && Takes(measured, Cutoff(today, retention), maxBytes, today, n)
            && report.keptCount == |measured| - n && report.keptBytes == Held(measured, n)
            && report.totalBytes == Bytes(Found(cal, entries))
            && report.candidateBytes == Bytes(report.candidates)
    ensures report.totalBytes == report.keptBytes + report.candidateBytes
    ensures report.dryRun == dryRun
    ensures dryRun ==> report.removed == [] && report.errors == [] && root.present == old(root.present)
    ensures !dryRun ==> && report.removed == Reclaimed(report.candidates, fate)
                        && report.errors == Failures(report.candidates, fate)
                        && |report.removed| + |report.errors| == |report.candidates|
                        && root.present == old(root.present) - Names(report.removed)
    ensures report.reclaimedBytes == Bytes(report.removed) <= report.candidateBytes
    ensures forall r :: r in report.skipped <==> exists k :: 0 <= k < |entries| && Refused(cal, entries[k], r)
  {
    var days, skipped := SpillDayEntries(cal, entries);
    MeasuredDays(cal, entries);
    var measured := Sorted(days);
    var candidates := Candidates(cal, measured, retention, maxBytes, today);
    var removed, errors := Remove(root, candidates, dryRun, fate);
    var kept := Others(measured, Names(candidates));
    KeptAreTheRest(cal, measured, |candidates|);
    SplitBytes(measured, |candidates|);
    HeldIsBytes(measured, |candidates|);
    BytesOfPermutation(days, measured);
    CandidatesAddUp(candidates, fate);
    report := Report(dryRun, candidates, Bytes(candidates), removed, Bytes(removed),
                     |kept|, Bytes(kept), Bytes(measured), skipped, errors);
  }

  lemma NamesSnoc(days: seq<Day>, d: Day)
    ensures Names(days + [d]) == Names(days) + {d.entry}
  {
    forall name
      ensures name in Names(days + [d]) <==> name in Names(days) + {d.entry}
    {
      if e :| e in days && e.entry == name {
        assert e in days + [d];
      }
      assert d in days + [d];
    }
  }

  lemma KeptAreTheRest(cal: Calendar, days: seq<Day>, n: nat)
    requires Ascending(days) && Named(cal, days) && n <= |days|
    ensures Others(days, Names(days[..n])) == days[n..]
  {
    NamesOfPrefix(cal, days, n);
    NamesPickThePrefix(days, Names(days[..n]), n);
  }

  lemma CountsWithoutOne(days: seq<Day>, k: nat)
    requires k < |days|
    ensures multiset(days) == multiset(days[..k] + days[k + 1..]) + multiset{days[k]}
  {
    assert days == days[..k] + [days[k]] + days[k + 1..];
  }

  lemma BytesWithoutOne(days: seq<Day>, k: nat)
    requires k < |days|
    ensures Bytes(days) == Bytes(days[..k] + days[k + 1..]) + days[k].size
  {
    SplitBytes(days, k);
    FirstKept(days, k);
    BytesAppend(days[..k], days[k + 1..]);
  }

  lemma {:induction false} BytesOfPermutation(a: seq<Day>, b: seq<Day>)
    requires multiset(a) == multiset(b)
    ensures Bytes(a) == Bytes(b)
  {
    if a == [] {
      assert |multiset(b)| == 0;
    } else {
      var front, last := a[..|a| - 1], a[|a| - 1];
      assert a == front + [last];
      assert last in multiset(b);
      var k :| 0 <= k < |b| && b[k] == last;
      CountsWithoutOne(b, k);
      BytesWithoutOne(b, k);
      SameWithoutOne(multiset(front), multiset(b[..k] + b[k + 1..]), last);
      BytesOfPermutation(front, b[..k] + b[k + 1..]);
    }
  }

  lemma SameWithoutOne(a: multiset<Day>, b: multiset<Day>, d: Day)
    requires a + multiset{d} == b + multiset{d}
    ensures a == b
  {
    forall e
      ensures a[e] == b[e]
    {
      assert (a + multiset{d})[e] == (b + multiset{d})[e];
    }
  }

  // ----- the write-path pruner -----

  function OnlyRemoved(days: seq<Day>, fate: Day -> Fate): seq<string> {
    if days == [] then []
    else
      var last := days[|days| - 1];
      OnlyRemoved(days[..|days| - 1], fate) + if fate(last).Removed? then [last.entry] else []
  }

  /** `_prune_old_spill_days`: walks the days in entry order, removes the stale ones as it goes and reports the
      ones it removed itself. */
  method PruneOldSpillDays(root: SpillRoot, cal: Calendar, entries: seq<Entry>, retention: nat, today: Ordinal,
                           fate: Day -> Fate) returns (removed: seq<string>)
    modifies root
    ensures var picked := StaleOf(Found(cal, entries), Cutoff(today, retention));
            && removed == OnlyRemoved(picked, fate)
            && root.present == old(root.present) - Names(Reclaimed(picked, fate))
  {
    removed := [];
    var cutoff := Cutoff(today, retention);
    if cutoff.None? {
      NothingIsStale(Found(cal, entries), cutoff);
      return;
    }
    var days, _ := SpillDayEntries(cal, entries);
    ghost var picked: seq<Day> := [];
    for i := 0 to |days|
      invariant picked == StaleOf(days[..i], cutoff)
      invariant removed == OnlyRemoved(picked, fate)
      invariant root.present == old(root.present) - Names(Reclaimed(picked, fate))
    {
      StaleStep(days, i, cutoff);
      if days[i].day >= cutoff.value { continue; }
      PickOneMore(picked, days[i], fate);
      picked := picked + [days[i]];
      root.Rmtree(days[i].entry, fate(days[i]));
      if fate(days[i]).Removed? {
        removed := removed + [days[i].entry];
      }
    }
    assert days[..|days|] == days;
  }

  lemma StaleStep(days: seq<Day>, i: nat, cutoff: Option<Ordinal>)
    requires i < |days|
    ensures StaleOf(days[..i + 1], cutoff) == StaleOf(days[..i], cutoff) + (if Stale(cutoff, days[i]) then [days[i]] else [])
  {
    assert days[..i + 1][..i] == days[..i];
  }

  lemma PickOneMore(picked: seq<Day>, d: Day, fate: Day -> Fate)
    ensures OnlyRemoved(picked + [d], fate) == OnlyRemoved(picked, fate) + if fate(d).Removed? then [d.entry] else []
    ensures Names(Reclaimed(picked + [d], fate)) == Names(Reclaimed(picked, fate)) + if fate(d).Failed? then {} else {d.entry}
  {
    assert (picked + [d])[..|picked|] == picked;
    NamesSnoc(Reclaimed(picked, fate), d);
  }

  lemma {:induction false} NothingIsStale(days: seq<Day>, cutoff: Option<Ordinal>)
    requires cutoff.None?
    ensures StaleOf(days, cutoff) == []
  {
    if days != [] {
      NothingIsStale(days[..|days| - 1], cutoff);
    }
  }

  lemma {:induction false} StaleCounts(days: seq<Day>, cutoff: Option<Ordinal>, d: Day)
    ensures multiset(StaleOf(days, cutoff))[d] == if Stale(cutoff, d) then multiset(days)[d] else 0
  {
    if days != [] {
      var before, last := days[..|days| - 1], days[|days| - 1];
      StaleCounts(before, cutoff, d);
      assert multiset(days) == multiset(before) + multiset{last} by {
        assert days == before + [last];
      }
    }
  }

  lemma StaleOfPermutation(a: seq<Day>, b: seq<Day>, cutoff: Option<Ordinal>)
    requires multiset(a) == multiset(b)
    ensures multiset(StaleOf(a, cutoff)) == multiset(StaleOf(b, cutoff))
  {
    forall d
      ensures multiset(StaleOf(a, cutoff))[d] == multiset(StaleOf(b, cutoff))[d]
    {
      StaleCounts(a, cutoff, d);
      StaleCounts(b, cutoff, d);
    }
  }

  lemma AgeAlone(measured: seq<Day>, cutoff: Option<Ordinal>, today: Ordinal, n: nat)
    requires Ascending(measured) && Takes(measured, cutoff, None, today, n)
    ensures n <= |measured| && measured[..n] == StaleOf(measured, cutoff)
  {
    StaleIsPrefix(measured, cutoff);
    StaleIsForced(measured, cutoff, n, |StaleOf(measured, cutoff)|);
  }

  /** A sweep with no size cap and the writer's own window takes exactly the days the write path prunes. */
  lemma BareSweepIsThePruner(cal: Calendar, entries: seq<Entry>, retention: nat, today: Ordinal, n: nat)
    requires DistinctNames(entries)
    requires Takes(Sorted(Found(cal, entries)), Cutoff(today, retention), None, today, n)
    ensures n <= |Sorted(Found(cal, entries))|
    ensures multiset(Sorted(Found(cal, entries))[..n]) == multiset(StaleOf(Found(cal, entries), Cutoff(today, retention)))
  {
    MeasuredDays(cal, entries);
    AgeAlone(Sorted(Found(cal, entries)), Cutoff(today, retention), today, n);
    StaleOfPermutation(Sorted(Found(cal, entries)), Found(cal, entries), Cutoff(today, retention));
  }

  /** Whatever the window and the cap, the live day and anything after it stay. */
  lemma TodayIsNeverTaken(days: seq<Day>, retention: int, maxBytes: Option<int>, today: Ordinal, n: nat, d: Day)
    requires Takes(days, Cutoff(today, retention), maxBytes, today, n)
    requires d in days && d.day >= today
    ensures n <= |days| && d in days[n..] && d !in days[..n]
  {
    var k :| 0 <= k < |days| && days[k] == d;
    assert days[n..][k - n] == d;
  }
}
