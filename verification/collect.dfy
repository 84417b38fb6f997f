/** `Client.collect`: paging a collection out of a bridge that may not be honest. */
module Collect {
  import opened Json

  datatype Failure = BadArgument | Malformed | TimedOut | Unbounded | Transport | TypeFault

  /** What earlier pages said of the total: nothing yet, or the last value published. */
  datatype Total = Unseen | Reported(total: Option<int>)

  datatype Page = Page(items: seq<Value>, hasMore: bool, total: Option<int>)

  function TotalOf(total: Value): Option<int> {
    if total.Int? then Some(total.number) else None
  }

  /** `_validate_page`: a page is trusted only when every clause holds. */
  function ValidatePage(page: Value, offset: int, limit: nat, previous: Total): Result<Page, Failure> {
    if !page.Obj? then Err(Malformed)
    else
      var items, hasMore, returned, total := Get(page, "items"), Get(page, "has_more"), Get(page, "returned"), Get(page, "total");
      if !items.Arr? || !hasMore.Bool? || (hasMore.flag && items.items == []) then Err(Malformed)
      else if |items.items| > limit || Get(page, "offset") != Int(offset) then Err(Malformed)
      else if !returned.Null? && returned != Int(|items.items|) then Err(Malformed)
      else if !total.Null? && !total.Int? then Err(Malformed)
      else if total.Int? && (total.number < 0 || (items.items != [] && total.number < offset + |items.items|)) then Err(Malformed)
      else if previous.Reported? && previous.total.Some? && previous.total != TotalOf(total) then Err(Malformed)
      else if total.Int? && !hasMore.flag && offset + |items.items| < total.number then Err(Malformed)
      else Ok(Page(items.items, hasMore.flag, TotalOf(total)))
  }

  /** What a page says of itself: where it starts, how many rows it brings, whether there is more. */
  predicate StatesItself(page: Value, offset: int) {
    && page.Obj? && Get(page, "items").Arr? && Get(page, "has_more").Bool?
    && Get(page, "offset") == Int(offset)
    && Get(page, "returned") in {Null, Int(|Get(page, "items").items|)}
  }

  /** What it says of the list: it brings no more than was asked, more to come only behind rows, and a total, if it
      states one, that is natural, covers its rows, is reached when nothing more comes, and is the one before. */
  predicate FitsTheList(page: Value, offset: int, limit: nat, previous: Total)
    requires StatesItself(page, offset)
  {
    var rows, more, total := Get(page, "items").items, Get(page, "has_more").flag, Get(page, "total");
    && |rows| <= limit && (more ==> rows != [])
    && (total.Null? || total.Int?)
    && (total.Int? ==> && total.number >= 0 && (rows != [] ==> offset + |rows| <= total.number)
                       && (!more ==> total.number <= offset + |rows|))
    && (previous.Reported? && previous.total.Some? ==> total == Int(previous.total.value))
  }

  /** A page is accepted exactly when it states itself and fits, and then it is read as it says. */
  lemma AcceptedExactlyWhenSound(page: Value, offset: int, limit: nat, previous: Total)
    ensures var checked := ValidatePage(page, offset, limit, previous);
            && (checked.Ok? <==> StatesItself(page, offset) && FitsTheList(page, offset, limit, previous))
            && (checked.Ok? ==>
                  && Get(page, "items") == Arr(checked.value.items) && Get(page, "has_more") == Bool(checked.value.hasMore)
                  && Get(page, "total") == (if checked.value.total.Some? then Int(checked.value.total.value) else Null))
            && (checked.Err? ==> checked.error == Malformed)
  {
  }

  // ----- the environment, and one turn of the loop -----

  /** One reply of the bridge to its n-th request, which may be anything at all. */
  datatype Reply = Answer(page: Value) | Refusal

  datatype Env = Env(
    bridge: (nat, int, nat) -> Reply,   // request number, offset, limit
    clock: nat -> int,                  // the n-th reading of the monotonic clock
    pageSize: nat,
    limit: Option<nat>,
    deadline: Option<int>)

  /** Time passes between two readings of the clock. */
  ghost predicate Advancing(clock: nat -> int) {
    forall i, j :: i < j ==> clock(i) < clock(j)
  }

  datatype State = State(calls: nat, offset: int, items: seq<Value>, seen: Total, pages: seq<Value>)

  datatype Turn = Stop(why: Failure) | Done(final: State, hasMore: bool) | More(next: State)

  /** Inside the loop there is still something to ask for. */
  predicate Hungry(env: Env, st: State) {
    env.pageSize >= 1 && (env.limit.Some? ==> |st.items| < env.limit.value)
  }

  /** How many rows the next request asks for, once `got` have come. */
  function AskFor(env: Env, got: nat): (n: nat)
    requires env.pageSize >= 1 && (env.limit.Some? ==> got < env.limit.value)
    ensures 1 <= n <= env.pageSize
    ensures env.limit.Some? ==> got + n <= env.limit.value
    ensures n < env.pageSize ==> env.limit == Some(got + n)
  {
    if env.limit.None? || env.pageSize <= env.limit.value - got then env.pageSize
    else env.limit.value - got
  }

  predicate Expired(env: Env, reading: nat) {
    env.deadline.Some? && env.deadline.value - env.clock(reading) <= 0
  }

  function Step(env: Env, st: State): Turn
    requires Hungry(env, st)
  {
    if Expired(env, st.calls + 1) then Stop(TimedOut)
    else
      var reply := env.bridge(st.calls, st.offset, AskFor(env, |st.items|));
      if reply.Refusal? then Stop(Transport)
      else
        var checked := ValidatePage(reply.page, st.offset, AskFor(env, |st.items|), st.seen);
        if checked.Err? then Stop(checked.error)
        else
          var page := checked.value;
          if page.hasMore && env.limit.None? && env.deadline.None? && page.total.None? then Stop(Unbounded)
          else
            var next := State(st.calls + 1, st.offset + |page.items|, st.items + page.items,
                              Reported(page.total), st.pages + [reply.page]);
            if !page.hasMore || (env.limit.Some? && |next.items| >= env.limit.value) then Done(next, page.hasMore)
            else More(next)
  }

  function Floor0(n: int): nat { if n < 0 then 0 else n }

  /** What is left before the loop must end: rows under the limit, else time under the deadline, else
      first the publication of a total and then the rows under it. */
  function Left(env: Env, st: State): nat {
    if env.limit.Some? then Floor0(env.limit.value - |st.items|)
    else if env.deadline.Some? then Floor0(env.deadline.value - env.clock(st.calls))
    else if st.seen.Reported? && st.seen.total.Some? then 0 else 1
  }

  function RowsLeft(st: State): nat {
    if st.seen.Reported? && st.seen.total.Some? then Floor0(st.seen.total.value - st.offset) else 0
  }

  lemma TurnsRunOut(env: Env, st: State)
    requires Hungry(env, st) && Advancing(env.clock) && Step(env, st).More?
    ensures var next := Step(env, st).next;
            Hungry(env, next) && (Left(env, next) < Left(env, st)
                                  || (Left(env, next) == Left(env, st) && RowsLeft(next) < RowsLeft(st)))
  {
    assert env.clock(st.calls) < env.clock(st.calls + 1);
  }

  /** The loop as a function of the environment: it ends whatever the bridge answers. */
  ghost function Loop(env: Env, st: State): Turn
    requires Hungry(env, st) && Advancing(env.clock)
    decreases Left(env, st), RowsLeft(st)
  {
    var turn := Step(env, st);
    if turn.More? then TurnsRunOut(env, st); Loop(env, turn.next) else turn
  }

  /** Every request of a run that returns was made before the deadline, and a run is refused for time only by a reading
      of the clock that reaches it; the first reading that does ends the run. */
  lemma {:induction false} RequestsMeetTheDeadline(env: Env, st: State)
    requires Hungry(env, st) && Advancing(env.clock) && env.deadline.Some?
    ensures var end, due := Loop(env, st), env.deadline.value;
            && (end.Done? ==> st.calls < end.final.calls
                              && forall n :: st.calls < n <= end.final.calls ==> env.clock(n) < due)
            && (end == Stop(TimedOut) ==> exists n :: n > st.calls && env.clock(n) >= due)
            && (env.clock(st.calls + 1) >= due ==> end == Stop(TimedOut))
    decreases Left(env, st), RowsLeft(st)
  {
    if Step(env, st).More? {
      TurnsRunOut(env, st);
      RequestsMeetTheDeadline(env, Step(env, st).next);
    } else if env.clock(st.calls + 1) < env.deadline.value {
      RequestFails(env, st);
    }
  }

  /** Why one request ends the run in a failure. */
  lemma RequestFails(env: Env, st: State)
    requires Hungry(env, st)
    ensures var due := env.deadline.Some? && env.clock(st.calls + 1) >= env.deadline.value;
            var reply := env.bridge(st.calls, st.offset, AskFor(env, |st.items|));
            && (Step(env, st) == Stop(TimedOut) <==> due)
            && (Step(env, st) == Stop(Transport) <==> !due && reply.Refusal?)
            && (Step(env, st) == Stop(Malformed) <==>
                  !due && reply.Answer? && ValidatePage(reply.page, st.offset, AskFor(env, |st.items|), st.seen).Err?)
            && (Step(env, st).Stop? ==> Step(env, st).why in {TimedOut, Transport, Malformed, Unbounded})
  {
  }

  // ----- safety against any bridge -----

  /** The rows a page carries. */
  function ItemsOf(page: Value): seq<Value> {
    var items := Get(page, "items");
    if items.Arr? then items.items else []
  }

  function RowsIn(pages: seq<Value>): nat {
    if pages == [] then 0 else RowsIn(pages[..|pages| - 1]) + |ItemsOf(pages[|pages| - 1])|
  }

  function AllItems(pages: seq<Value>): seq<Value> {
    if pages == [] then [] else AllItems(pages[..|pages| - 1]) + ItemsOf(pages[|pages| - 1])
  }

  /** What the run has established after some pages: they answer consecutive requests from `start`, no row
      is skipped, repeated or invented, and a determined total never moves. */
  ghost predicate Faithful(env: Env, start: int, st: State) {
    && st.calls == |st.pages|
    && st.items == AllItems(st.pages)
    && st.offset == start + |st.items|
    && (forall k :: 0 <= k < |st.pages| ==> Answers(env, start, st.pages, k))
    && (forall k :: 0 <= k < |st.pages| && TotalOf(Get(st.pages[k], "total")).Some? ==>
          st.seen == Reported(TotalOf(Get(st.pages[k], "total"))))
    && (forall k :: 0 <= k < |st.pages| && PublishesWithRows(st.pages[k]) ==>
          st.seen.Reported? && st.seen.total.Some? && st.offset <= st.seen.total.value)
    && (env.limit.Some? ==> |st.items| <= env.limit.value)
  }

  /** A page that brings rows and states the total. */
  predicate PublishesWithRows(page: Value) {
    ItemsOf(page) != [] && TotalOf(Get(page, "total")).Some?
  }

  /** Page k is the bridge's answer to the request at `start` plus the rows of the pages before it. */
  predicate Answers(env: Env, start: int, pages: seq<Value>, k: nat)
    requires k < |pages|
  {
    var got := RowsIn(pages[..k]);
    && env.pageSize >= 1 && (env.limit.Some? ==> got < env.limit.value)
    && env.bridge(k, start + got, AskFor(env, got)) == Answer(pages[k])
    && Get(pages[k], "offset") == Int(start + got)
    && Get(pages[k], "returned") in {Null, Int(|ItemsOf(pages[k])|)}
    && |ItemsOf(pages[k])| <= AskFor(env, got)
  }

  lemma {:induction false} RowsCounted(pages: seq<Value>)
    ensures |AllItems(pages)| == RowsIn(pages)
  {
    if pages != [] {
      RowsCounted(pages[..|pages| - 1]);
    }
  }

  /** `next` is `st` with one accepted page added. */
  ghost predicate Adds(env: Env, st: State, next: State, page: Value)
    requires Hungry(env, st)
  {
    && next.pages == st.pages + [page] && next.calls == st.calls + 1
    && env.bridge(st.calls, st.offset, AskFor(env, |st.items|)) == Answer(page)
    && Get(page, "offset") == Int(st.offset) && Get(page, "returned") in {Null, Int(|ItemsOf(page)|)}
    && |ItemsOf(page)| <= AskFor(env, |st.items|)
    && next.items == st.items + ItemsOf(page) && next.offset == st.offset + |ItemsOf(page)|
    && next.seen == Reported(TotalOf(Get(page, "total")))
    && (st.seen.Reported? && st.seen.total.Some? ==> next.seen == st.seen)
    && (ItemsOf(page) != [] && next.seen.total.Some? ==> next.offset <= next.seen.total.value)
  }

  function Reached(turn: Turn): State
    requires !turn.Stop?
  {
    if turn.More? then turn.next else turn.final
  }

  lemma StepAdds(env: Env, st: State)
    requires Hungry(env, st) && !Step(env, st).Stop?
    ensures Reached(Step(env, st)).pages != []
    ensures Adds(env, st, Reached(Step(env, st)), Reached(Step(env, st)).pages[|st.pages|])
    ensures Step(env, st).More? ==> ItemsOf(Reached(Step(env, st)).pages[|st.pages|]) != []
  {
  }

  lemma FaithExtends(env: Env, start: int, st: State, next: State, page: Value)
    requires Hungry(env, st) && Faithful(env, start, st) && Adds(env, st, next, page)
    ensures Faithful(env, start, next)
  {
    RowsCounted(st.pages);
    assert next.pages[..|next.pages| - 1] == st.pages;
    AnswersExtend(env, start, st, next, page);
    assert forall k :: 0 <= k < |st.pages| ==> next.pages[k] == st.pages[k];
  }

  lemma AnswersExtend(env: Env, start: int, st: State, next: State, page: Value)
    requires Hungry(env, st) && Faithful(env, start, st) && Adds(env, st, next, page)
    ensures forall k :: 0 <= k < |next.pages| ==> Answers(env, start, next.pages, k)
  {
    RowsCounted(st.pages);
    forall k | 0 <= k < |next.pages|
      ensures Answers(env, start, next.pages, k)
    {
      if k < |st.pages| {
        AnswerStands(env, start, st.pages, page, k);
      } else {
        assert next.pages[..k] == st.pages;
      }
    }
  }

  lemma AnswerStands(env: Env, start: int, pages: seq<Value>, page: Value, k: nat)
    requires k < |pages| && Answers(env, start, pages, k)
    ensures Answers(env, start, pages + [page], k)
  {
    assert (pages + [page])[..k] == pages[..k];
  }

  lemma StepKeepsFaith(env: Env, start: int, st: State)
    requires Hungry(env, st) && Faithful(env, start, st) && !Step(env, st).Stop?
    ensures Faithful(env, start, Reached(Step(env, st)))
  {
    StepAdds(env, st);
    var next := Reached(Step(env, st));
    FaithExtends(env, start, st, next, next.pages[|st.pages|]);
  }

  lemma {:induction false} LoopKeepsFaith(env: Env, start: int, st: State)
    requires Hungry(env, st) && Advancing(env.clock) && Faithful(env, start, st)
    ensures Loop(env, st).Done? ==> Faithful(env, start, Loop(env, st).final)
    ensures !Loop(env, st).More?
    decreases Left(env, st), RowsLeft(st)
  {
    if !Step(env, st).Stop? {
      StepKeepsFaith(env, start, st);
    }
    if Step(env, st).More? {
      TurnsRunOut(env, st);
      LoopKeepsFaith(env, start, Step(env, st).next);
    }
  }

  function Begin(start: int): State { State(0, start, [], Unseen, []) }

  /** How a run that returned ended: on a page saying there is no more, or at the limit. */
  lemma {:induction false} LoopEndsRight(env: Env, st: State)
    requires Hungry(env, st) && Advancing(env.clock) && Loop(env, st).Done?
    ensures var done := Loop(env, st);
            && done.final.pages != []
            && (var last := done.final.pages[|done.final.pages| - 1];
                Get(last, "has_more") == Bool(done.hasMore) && done.final.seen == Reported(TotalOf(Get(last, "total"))))
            && done.final.seen.Reported?
            && (done.hasMore ==> env.limit.Some? && |done.final.items| >= env.limit.value)
            && (!done.hasMore && done.final.seen.total.Some? ==> done.final.offset >= done.final.seen.total.value)
    decreases Left(env, st), RowsLeft(st)
  {
    if Step(env, st).More? {
      TurnsRunOut(env, st);
      LoopEndsRight(env, Step(env, st).next);
    }
  }

  /** Against any bridge: the loop ends; what it returns is the concatenation of pages at consecutive
      offsets, within the limit; every total published agrees with the last; and a run the bridge itself
      ended stops at or past that total, and exactly there once a page with rows had published it. */
  lemma AnyBridgeIsSafe(env: Env, start: int)
    requires Hungry(env, Begin(start)) && Advancing(env.clock)
    ensures !Loop(env, Begin(start)).More?
    ensures Loop(env, Begin(start)).Done? ==>
              var done := Loop(env, Begin(start));
              && Faithful(env, start, done.final)
              && done.final.seen.Reported?
              && (done.hasMore ==> env.limit == Some(|done.final.items|))
              && (!done.hasMore && done.final.seen.total.Some? ==>
                    start + |done.final.items| >= done.final.seen.total.value)
              && (!done.hasMore && (exists k :: 0 <= k < |done.final.pages| && PublishesWithRows(done.final.pages[k])) ==>
                    done.final.seen == Reported(Some(start + |done.final.items|)))
  {
    LoopKeepsFaith(env, start, Begin(start));
    if Loop(env, Begin(start)).Done? {
      LoopEndsRight(env, Begin(start));
    }
  }

  /** A bridge that does not honour the offset asked for ends the run; nothing of its page is kept. */
  lemma AnotherOffsetEndsTheRun(env: Env, st: State)
    requires Hungry(env, st) && Advancing(env.clock) && !Expired(env, st.calls + 1)
    requires env.bridge(st.calls, st.offset, AskFor(env, |st.items|)).Answer?
    requires Get(env.bridge(st.calls, st.offset, AskFor(env, |st.items|)).page, "offset") != Int(st.offset)
    ensures Loop(env, st) == Stop(Malformed)
  {
    AcceptedExactlyWhenSound(env.bridge(st.calls, st.offset, AskFor(env, |st.items|)).page, st.offset,
                             AskFor(env, |st.items|), st.seen);
  }

  /** Two of four rows, at offset 0. */
  function FirstTwo(more: bool): Value {
    Obj(map["items" := Arr([Int(1), Int(2)]), "has_more" := Bool(more), "offset" := Int(0), "total" := Int(4)])
  }

  /** A bridge that ignores paging and answers every request with its first two rows. */
  function Repeats(clock: nat -> int): Env {
    Env((k: nat, offset: int, limit: nat) => Answer(FirstTwo(k == 0)), clock, 2, None, None)
  }

  /** Its rows are never taken twice: the run stops at the repetition. */
  lemma RepeatedPageIsRefused(clock: nat -> int)
    requires Advancing(clock)
    ensures Loop(Repeats(clock), Begin(0)) == Stop(Malformed)
  {
    var env := Repeats(clock);
    assert ValidatePage(FirstTwo(true), 0, 2, Unseen) == Ok(Page([Int(1), Int(2)], true, Some(4)));
    var next := State(1, 2, [] + [Int(1), Int(2)], Reported(Some(4)), [] + [FirstTwo(true)]);
    assert Step(env, Begin(0)) == More(next);
    TurnsRunOut(env, Begin(0));
    assert Get(FirstTwo(false), "offset") == Int(0);
    AnotherOffsetEndsTheRun(env, next);
  }

  // ----- when the total is forced -----

  function WithTotal(page: Value, total: nat): Value {
    if page.Obj? then Obj(page.fields["total" := Int(total)]) else page
  }

  /** The same bridge, but for the total its `n`-th answer states. */
  function Retotalled(env: Env, n: nat, total: nat): Env {
    env.(bridge := (k: nat, offset: int, limit: nat) =>
      var reply := env.bridge(k, offset, limit);
      if k == n && reply.Answer? then Answer(WithTotal(reply.page, total)) else reply)
  }

  /** A run only adds pages, one a call. */
  lemma {:induction false} LoopExtends(env: Env, st: State)
    requires Hungry(env, st) && Advancing(env.clock) && Loop(env, st).Done? && |st.pages| == st.calls
    ensures var final := Loop(env, st).final;
            && |final.pages| == final.calls > st.calls && st.pages == final.pages[..st.calls]
            && (final.calls == st.calls + 1 <==> Step(env, st).Done?)
    decreases Left(env, st), RowsLeft(st)
  {
    if Step(env, st).More? {
      TurnsRunOut(env, st);
      LoopExtends(env, Step(env, st).next);
    }
  }

  /** Nothing yet published and no total promised by the pages still to come, the last one apart. */
  ghost predicate Silent(env: Env, st: State)
    requires Hungry(env, st) && Advancing(env.clock)
  {
    && Loop(env, st).Done? && (st.seen.Reported? ==> st.seen.total.None?)
    && var pages := Loop(env, st).final.pages;
       forall k :: st.calls <= k < |pages| - 1 ==> TotalOf(Get(pages[k], "total")).None?
  }

  /** The last turn, with another total on its page. */
  lemma LastTurnAgain(env: Env, st: State, total: nat)
    requires Hungry(env, st) && Step(env, st).Done?
    ensures var once, again := Step(env, st), Step(Retotalled(env, st.calls, total), st);
            var last := once.final.pages[|st.pages|];
            && once.final.pages == st.pages + [last]
            && (again.Done? ==> again == Done(Ended(once.final, total), once.hasMore))
            && !again.More?
            && (ItemsOf(last) == [] && total <= once.final.offset && (st.seen.Reported? ==> st.seen.total.None?) ==> again.Done?)
  {
    var page := env.bridge(st.calls, st.offset, AskFor(env, |st.items|)).page;
    TotalRead(page, total);
  }

  lemma TotalRead(page: Value, total: nat)
    requires page.Obj?
    ensures var changed := WithTotal(page, total);
            && Get(changed, "total") == Int(total) && Get(changed, "items") == Get(page, "items")
            && Get(changed, "has_more") == Get(page, "has_more") && Get(changed, "offset") == Get(page, "offset")
            && Get(changed, "returned") == Get(page, "returned")
  {
  }

  lemma SameTurn(env: Env, st: State, n: nat, total: nat)
    requires Hungry(env, st) && st.calls != n
    ensures Step(Retotalled(env, n, total), st) == Step(env, st)
  {
  }

  /** What a run came to, with another total on its last page. */
  function Ended(final: State, total: nat): State
    requires final.pages != []
  {
    var n := |final.pages| - 1;
    final.(seen := Reported(Some(total)), pages := final.pages[..n] + [WithTotal(final.pages[n], total)])
  }

  /** The run again with another total on its last page: it can only come to the same rows with that total, and it
      does when that page is empty, the total no more than the rows reach, and no total was published before. */
  lemma {:induction false} RunAgain(env: Env, st: State, total: nat)
    requires Hungry(env, st) && Advancing(env.clock) && Loop(env, st).Done? && |st.pages| == st.calls
    ensures var once := Loop(env, st);
            var n := once.final.calls - 1;
            && n >= 0 && |once.final.pages| == n + 1
            && var again := Loop(Retotalled(env, n, total), st);
               && (again.Done? ==> again == Done(Ended(once.final, total), once.hasMore))
               && (Silent(env, st) && ItemsOf(once.final.pages[n]) == [] && total <= once.final.offset ==> again.Done?)
    decreases Left(env, st), RowsLeft(st)
  {
    LoopExtends(env, st);
    var once := Loop(env, st);
    var n := once.final.calls - 1;
    if Step(env, st).Done? {
      LastTurnAgain(env, st, total);
      assert once.final.pages[..n] == st.pages;
    } else {
      var next := Step(env, st).next;
      TurnsRunOut(env, st);
      SameTurn(env, st, n, total);
      LoopExtends(env, next);
      RunAgain(env, next, total);
      if Silent(env, st) {
        assert once.final.pages[st.calls] == next.pages[st.calls];
        assert Silent(env, next);
      }
    }
  }

  /** Every page but the last brings rows. */
  lemma {:induction false} EarlierPagesBringRows(env: Env, st: State)
    requires Hungry(env, st) && Advancing(env.clock) && Loop(env, st).Done? && |st.pages| == st.calls
    ensures var pages := Loop(env, st).final.pages;
            forall k :: st.calls <= k < |pages| - 1 ==> ItemsOf(pages[k]) != []
    decreases Left(env, st), RowsLeft(st)
  {
    LoopExtends(env, st);
    if Step(env, st).More? {
      var next := Step(env, st).next;
      TurnsRunOut(env, st);
      StepAdds(env, st);
      LoopExtends(env, next);
      EarlierPagesBringRows(env, next);
      var pages := Loop(env, st).final.pages;
      assert pages[st.calls] == next.pages[st.calls];
    }
  }

  predicate SomeRowsPublish(pages: seq<Value>) {
    exists k :: 0 <= k < |pages| && PublishesWithRows(pages[k])
  }

  /** A run the bridge ended on a page that states a total. */
  ghost predicate EndsOnATotal(env: Env, start: int) {
    && Hungry(env, Begin(start)) && Advancing(env.clock)
    && var run := Loop(env, Begin(start));
       run.Done? && !run.hasMore && run.final.seen.Reported? && run.final.seen.total.Some?
  }

  /** If the last answer had stated this total and the run still been accepted, the total would have been the rows'. */
  ghost predicate Forced(env: Env, start: int, total: nat)
    requires EndsOnATotal(env, start)
  {
    var calls := Loop(env, Begin(start)).final.calls;
    calls > 0 ==> TotalsItsRows(Retotalled(env, calls - 1, total), start)
  }

  ghost predicate TotalsItsRows(env: Env, start: int)
    requires Hungry(env, Begin(start)) && Advancing(env.clock)
  {
    var again := Loop(env, Begin(start));
    again.Done? ==> again.final.seen == Reported(Some(start + |again.final.items|))
  }

  /** A run that, accepted, ends as `once` did with another total. */
  ghost predicate ComesTo(env: Env, start: int, once: State, total: nat)
    requires Hungry(env, Begin(start)) && Advancing(env.clock) && once.pages != []
  {
    var again := Loop(env, Begin(start));
    again.Done? ==> again == Done(Ended(once, total), false)
  }

  /** When the total is what the rows come to: on every total the last answer might state, exactly when some page with
      rows published one, or the run reaches no row at all. */
  lemma TotalIsForcedExactlyByRows(env: Env, start: int)
    requires EndsOnATotal(env, start)
    ensures var final := Loop(env, Begin(start)).final;
            (forall total: nat :: Forced(env, start, total)) <==> SomeRowsPublish(final.pages) || start + |final.items| == 0
  {
    var final := Loop(env, Begin(start)).final;
    if SomeRowsPublish(final.pages) || start + |final.items| == 0 {
      forall total: nat
        ensures Forced(env, start, total)
      {
        RowsForceTheTotal(env, start, total);
      }
    } else {
      EmptyPageForcesNothing(env, start);
    }
  }

  /** What any bridge's run, ended by the bridge, says of its total. */
  lemma TotalOfARun(env: Env, start: int)
    requires Hungry(env, Begin(start)) && Advancing(env.clock)
    requires Loop(env, Begin(start)).Done? && !Loop(env, Begin(start)).hasMore
    ensures var final := Loop(env, Begin(start)).final;
            && final.offset == start + |final.items| && final.seen.Reported?
            && (final.seen.total.Some? ==> final.offset >= final.seen.total.value)
            && (SomeRowsPublish(final.pages) ==> final.seen == Reported(Some(start + |final.items|)))
  {
    AnyBridgeIsSafe(env, start);
  }

  lemma RowsForceTheTotal(env: Env, start: int, total: nat)
    requires EndsOnATotal(env, start)
    requires var final := Loop(env, Begin(start)).final; SomeRowsPublish(final.pages) || start + |final.items| == 0
    ensures Forced(env, start, total)
  {
    var final := EndOf(env, start);
    ComesToTheSame(env, start, total);
    ForcedIn(Retotalled(env, final.calls - 1, total), start, final, total);
  }

  ghost function EndOf(env: Env, start: int): State
    requires EndsOnATotal(env, start)
  {
    Loop(env, Begin(start)).final
  }

  lemma ComesToTheSame(env: Env, start: int, total: nat)
    requires EndsOnATotal(env, start)
    ensures var final := EndOf(env, start);
            && final.calls > 0 && final.pages != []
            && Hungry(Retotalled(env, final.calls - 1, total), Begin(start))
            && Advancing(Retotalled(env, final.calls - 1, total).clock)
            && ComesTo(Retotalled(env, final.calls - 1, total), start, final, total)
  {
    RunAgain(env, Begin(start), total);
  }

  lemma ForcedIn(env: Env, start: int, once: State, total: nat)
    requires Hungry(env, Begin(start)) && Advancing(env.clock) && once.pages != []
    requires ComesTo(env, start, once, total)
    requires SomeRowsPublish(once.pages) || start + |once.items| == 0
    ensures TotalsItsRows(env, start)
  {
    if Loop(env, Begin(start)).Done? {
      TotalOfARun(env, start);
      ForcedByRows(start, once, Ended(once, total), total);
    }
  }

  lemma ForcedByRows(start: int, final: State, again: State, total: nat)
    requires final.pages != [] && again == Ended(final, total)
    requires SomeRowsPublish(final.pages) || start + |final.items| == 0
    requires SomeRowsPublish(again.pages) ==> again.seen == Reported(Some(start + |again.items|))
    requires again.offset == start + |again.items| >= total
    ensures again.seen == Reported(Some(start + |again.items|))
  {
    if SomeRowsPublish(final.pages) {
      RowsPublishStill(final, total);
    }
  }

  lemma RowsPublishStill(final: State, total: nat)
    requires final.pages != [] && SomeRowsPublish(final.pages)
    ensures SomeRowsPublish(Ended(final, total).pages)
  {
    var k :| 0 <= k < |final.pages| && PublishesWithRows(final.pages[k]);
    var pages := Ended(final, total).pages;
    if k < |final.pages| - 1 {
      assert pages[k] == final.pages[k];
    } else {
      TotalRead(final.pages[k], total);
      assert PublishesWithRows(pages[k]);
    }
  }

  /** With no total beside rows, the one stated stands on the last page, which is empty. */
  lemma OnlyTheLastPageStates(env: Env, start: int)
    requires EndsOnATotal(env, start) && !SomeRowsPublish(Loop(env, Begin(start)).final.pages)
    ensures Silent(env, Begin(start))
    ensures var pages := Loop(env, Begin(start)).final.pages;
            pages != [] && ItemsOf(pages[|pages| - 1]) == []
  {
    var pages := Loop(env, Begin(start)).final.pages;
    LoopEndsRight(env, Begin(start));
    EarlierPagesBringRows(env, Begin(start));
    assert !PublishesWithRows(pages[|pages| - 1]);
    forall k | 0 <= k < |pages| - 1
      ensures TotalOf(Get(pages[k], "total")).None?
    {
      assert !PublishesWithRows(pages[k]) && ItemsOf(pages[k]) != [];
    }
  }

  lemma EmptyPageForcesNothing(env: Env, start: int)
    requires EndsOnATotal(env, start)
    requires var final := Loop(env, Begin(start)).final; !SomeRowsPublish(final.pages) && start + |final.items| != 0
    ensures !Forced(env, start, 0)
  {
    OnlyTheLastPageStates(env, start);
    TotalOfARun(env, start);
    TotalIsNatural(env, start);
    RunAgain(env, Begin(start), 0);
  }

  lemma TotalIsNatural(env: Env, start: int)
    requires EndsOnATotal(env, start)
    ensures Loop(env, Begin(start)).final.seen.total.value >= 0
  {
    TotalsAreNatural(env, Begin(start));
  }

  lemma {:induction false} TotalsAreNatural(env: Env, st: State)
    requires Hungry(env, st) && Advancing(env.clock) && Loop(env, st).Done?
    ensures var seen := Loop(env, st).final.seen;
            seen.Reported? && (seen.total.Some? ==> seen.total.value >= 0)
    decreases Left(env, st), RowsLeft(st)
  {
    if Step(env, st).More? {
      TurnsRunOut(env, st);
      TotalsAreNatural(env, Step(env, st).next);
    }
  }

  /** Two rows under a total of null, then an empty page stating a total of 0. */
  function TwoRows(): Value {
    Obj(map["items" := Arr([Null, Null]), "has_more" := Bool(true), "offset" := Int(0), "total" := Null])
  }

  function NothingOfNone(): Value {
    Obj(map["items" := Arr([]), "has_more" := Bool(false), "offset" := Int(2), "total" := Int(0)])
  }

  function TwoThenNone(clock: nat -> int): Env {
    Env((k: nat, offset: int, limit: nat) => if k == 0 then Answer(TwoRows()) else Answer(NothingOfNone()),
        clock, 2, Some(5), None)
  }

  /** Both are accepted: two rows come back beside a total of 0. */
  lemma TotalBelowItsRows(clock: nat -> int)
    requires Advancing(clock)
    ensures var run := Loop(TwoThenNone(clock), Begin(0));
            run.Done? && !run.hasMore && |run.final.items| == 2 && run.final.seen == Reported(Some(0))
  {
    var env := TwoThenNone(clock);
    assert ValidatePage(TwoRows(), 0, 2, Unseen) == Ok(Page([Null, Null], true, None));
    var next := State(1, 2, [] + [Null, Null], Reported(None), [] + [TwoRows()]);
    assert Step(env, Begin(0)) == More(next);
    assert ValidatePage(NothingOfNone(), 2, 2, Reported(None)) == Ok(Page([], false, Some(0)));
    assert Step(env, next).Done?;
    TurnsRunOut(env, Begin(0));
  }

  // ----- refinement against an honest bridge -----

  /** A page of `rows` at `offset`: short pages allowed, the total known or still null. */
  predicate HonestPage(page: Value, rows: seq<Value>, offset: nat, limit: nat) {
    && page.Obj? && Get(page, "items").Arr?
    && var k := |ItemsOf(page)|;
       && k <= limit && (if offset < |rows| then 1 <= k <= |rows| - offset else k == 0)
       && (offset < |rows| ==> ItemsOf(page) == rows[offset..offset + k])
       && Get(page, "has_more") == Bool(offset + k < |rows|)
       && Get(page, "offset") == Int(offset)
       && Get(page, "returned") in {Null, Int(k)}
       && Get(page, "total") in {Null, Int(|rows|)}
  }

  predicate HonestReply(env: Env, rows: seq<Value>, n: nat, offset: nat, limit: nat) {
    env.bridge(n, offset, limit).Answer? && HonestPage(env.bridge(n, offset, limit).page, rows, offset, limit)
  }

  predicate Determined(env: Env, n: nat, offset: nat, limit: nat) {
    env.bridge(n, offset, limit).Answer? && !Get(env.bridge(n, offset, limit).page, "total").Null?
  }

  ghost predicate Settled(env: Env, n: nat) {
    exists o: nat, l: nat :: Determined(env, n, o, l)
  }

  /** Every request is answered by an honest page of one fixed list, and a total once determined stays so. */
  ghost predicate Honest(env: Env, rows: seq<Value>) {
    && (forall n: nat, offset: nat, limit: nat :: limit >= 1 ==> HonestReply(env, rows, n, offset, limit))
    && (forall n: nat, o: nat, l: nat, m: nat, p: nat, q: nat ::
          n < m && Determined(env, n, o, l) && q >= 1 ==> Determined(env, m, p, q))
  }

  function Min(a: int, b: int): int { if a < b then a else b }

  /** The rows a caller asked for. */
  function Slice(rows: seq<Value>, start: nat, limit: Option<nat>): seq<Value> {
    var from := Min(start, |rows|);
    rows[from..if limit.None? then |rows| else Min(from + limit.value, |rows|)]
  }

  /** The run so far holds the rows from `start`, and its total was determined by its last request. */
  ghost predicate OnTrack(env: Env, rows: seq<Value>, start: nat, st: State) {
    && st.offset >= start
    && |st.items| == st.offset - start
    && (if start <= |rows| then st.offset <= |rows| && st.items == rows[start..st.offset] else st.items == [])
    && (st.seen.Reported? && st.seen.total.Some? ==>
          st.seen.total.value == |rows| && st.calls > 0 && Settled(env, st.calls - 1))
  }

  lemma HonestStep(env: Env, rows: seq<Value>, start: nat, st: State)
    requires Hungry(env, st) && Honest(env, rows) && OnTrack(env, rows, start, st)
    ensures var turn := Step(env, st);
            if turn.Stop? then
              (turn.why == TimedOut && env.deadline.Some?)
              || (turn.why == Unbounded && env.limit.None? && env.deadline.None?
                  && !Determined(env, st.calls, st.offset, AskFor(env, |st.items|)))
            else
              && OnTrack(env, rows, start, Reached(turn))
              && (turn.Done? ==> turn.final.items == Slice(rows, start, env.limit)
                                 && (turn.hasMore <==> turn.final.offset < |rows|))
  {
    if !Expired(env, st.calls + 1) {
      HonestAnswer(env, rows, start, st);
      var limit := AskFor(env, |st.items|);
      var page := env.bridge(st.calls, st.offset, limit).page;
      if !Step(env, st).Stop? {
        var next := Reached(Step(env, st));
        OnTrackNext(env, rows, start, st, next, ItemsOf(page), TotalOf(Get(page, "total")));
        if Step(env, st).Done? {
          AllTaken(env, rows, start, next);
        }
      }
    }
  }

  lemma OnTrackNext(env: Env, rows: seq<Value>, start: nat, st: State, next: State, items: seq<Value>, total: Option<int>)
    requires OnTrack(env, rows, start, st) && next.calls == st.calls + 1
    requires next.items == st.items + items && next.offset == st.offset + |items| && next.seen == Reported(total)
    requires if st.offset < |rows| then
               |items| <= |rows| - st.offset && items == rows[st.offset..st.offset + |items|]
             else items == []
    requires total.Some? ==> total.value == |rows| && Settled(env, st.calls)
    ensures OnTrack(env, rows, start, next)
  {
  }

  /** On track, the run has the whole slice once the list or the limit is used up. */
  lemma AllTaken(env: Env, rows: seq<Value>, start: nat, st: State)
    requires OnTrack(env, rows, start, st) && (env.limit.Some? ==> |st.items| <= env.limit.value)
    requires st.offset >= |rows| || (env.limit.Some? && |st.items| == env.limit.value)
    ensures st.items == Slice(rows, start, env.limit)
  {
  }

  lemma HonestAnswer(env: Env, rows: seq<Value>, start: nat, st: State)
    requires Hungry(env, st) && Honest(env, rows) && OnTrack(env, rows, start, st)
    ensures var limit := AskFor(env, |st.items|);
            && env.bridge(st.calls, st.offset, limit).Answer?
            && var page := env.bridge(st.calls, st.offset, limit).page;
               && (if st.offset < |rows| then
                     && 1 <= |ItemsOf(page)| <= Min(limit, |rows| - st.offset)
                     && ItemsOf(page) == rows[st.offset..st.offset + |ItemsOf(page)|]
                   else ItemsOf(page) == [])
               && ValidatePage(page, st.offset, limit, st.seen) ==
                  Ok(Page(ItemsOf(page), st.offset + |ItemsOf(page)| < |rows|, TotalOf(Get(page, "total"))))
               && (TotalOf(Get(page, "total")).Some? ==>
                     TotalOf(Get(page, "total")).value == |rows| && Determined(env, st.calls, st.offset, limit))
               && (TotalOf(Get(page, "total")).None? ==> !Determined(env, st.calls, st.offset, limit))
  {
    var limit := AskFor(env, |st.items|);
    assert HonestReply(env, rows, st.calls, st.offset, limit);
    if st.seen.Reported? && st.seen.total.Some? {
      var o: nat, l: nat :| Determined(env, st.calls - 1, o, l);
      assert Determined(env, st.calls, st.offset, limit);
    }
    HonestPageIsAccepted(env.bridge(st.calls, st.offset, limit).page, rows, st.offset, limit, st.seen);
  }

  lemma HonestPageIsAccepted(page: Value, rows: seq<Value>, offset: nat, limit: nat, seen: Total)
    requires HonestPage(page, rows, offset, limit)
    requires seen.Reported? && seen.total.Some? ==> seen.total.value == |rows| && !Get(page, "total").Null?
    ensures ValidatePage(page, offset, limit, seen) ==
            Ok(Page(ItemsOf(page), offset + |ItemsOf(page)| < |rows|, TotalOf(Get(page, "total"))))
  {
  }

  lemma {:induction false} HonestLoop(env: Env, rows: seq<Value>, start: nat, st: State)
    requires Hungry(env, st) && Advancing(env.clock) && Honest(env, rows) && OnTrack(env, rows, start, st)
    ensures HonestOutcome(env, rows, start, Loop(env, st))
    decreases Left(env, st), RowsLeft(st)
  {
    HonestStep(env, rows, start, st);
    if Step(env, st).More? {
      TurnsRunOut(env, st);
      HonestLoop(env, rows, start, Step(env, st).next);
    }
  }

  /** The exact slice; or the caller's own deadline ran out; or nothing at all bounded the collection. */
  ghost predicate HonestOutcome(env: Env, rows: seq<Value>, start: nat, turn: Turn) {
    match turn
    case Done(final, hasMore) =>
      final.items == Slice(rows, start, env.limit) && (hasMore <==> start + |final.items| < |rows|)
    case Stop(why) =>
      (why == TimedOut && env.deadline.Some?)
      || (why == Unbounded && env.limit.None? && env.deadline.None?
          && exists n: nat, o: nat, l: nat :: l >= 1 && !Determined(env, n, o, l))
    case More(_) => false
  }

  /** Against an honest bridge a collection with no deadline, and a limit or a determined total, returns
      exactly the slice asked for, whatever the page size. */
  lemma HonestBridgeGivesTheSlice(env: Env, rows: seq<Value>, start: nat)
    requires Hungry(env, Begin(start)) && Advancing(env.clock) && Honest(env, rows)
    ensures HonestOutcome(env, rows, start, Loop(env, Begin(start)))
    ensures env.deadline.None?
            && (env.limit.Some? || forall n: nat, o: nat, l: nat :: l >= 1 ==> Determined(env, n, o, l))
            ==> Loop(env, Begin(start)).Done?
  {
    HonestLoop(env, rows, start, Begin(start));
  }

  // ----- the envelope a caller receives -----

  type Fields = map<string, Value>

  const OBSERVED_OPTIONAL := "present on some rows of this page only"

  const COVERAGE := ["scan_truncated", "caller_scan_truncated", "caller_scan_note",
                     "callers_scanned", "caller_total", "total_lower_bound"]

  function Strings(names: seq<string>): seq<Value> {
    seq(|names|, k requires 0 <= k < |names| => Str(names[k]))
  }

  /** The texts a Python `for` over the value yields, and whether it can be iterated at all. */
  function Yielded(v: Value): set<string> {
    match v
    case Arr(items) => set x | x in items && x.Str? :: x.text
    case Str(text) => set c | c in text :: [c]
    case Obj(fields) => fields.Keys
    case _ => {}
  }

  predicate Iterable(v: Value) { !Truthy(v) || v.Arr? || v.Str? || v.Obj? }

  /** The columns one page declares, always-present and conditional. */
  function Declared(page: Value): set<string> {
    Yielded(Get(page, "row_fields")) + Conditions(page).Keys
  }

  function Conditions(page: Value): Fields {
    AsFields(Get(page, "row_fields_optional"))
  }

  /** `for field in page.get("row_fields") or []`, keeping the texts. The order of an object's keys is
      whatever the reply gave. */
  method FieldsOf(v: Value) returns (names: seq<string>)
    requires Iterable(v)
    ensures (set name | name in names) == Yielded(v)
  {
    names := [];
    match v {
      case Arr(items) =>
        for i := 0 to |items|
          invariant forall name :: name in names <==> exists k :: 0 <= k < i && items[k] == Str(name)
        {
          if items[i].Str? {
            names := names + [items[i].text];
          }
        }
      case Str(text) =>
        names := seq(|text|, k requires 0 <= k < |text| => [text[k]]);
        forall c | c in text
          ensures [c] in names
        {
          var k :| 0 <= k < |text| && text[k] == c;
          assert names[k] == [c];
        }
      case Obj(fields) =>
        var keys := fields.Keys;
        while keys != {}
          invariant (set name | name in names) + keys == fields.Keys
          decreases keys
        {
          var key :| key in keys;
          names, keys := names + [key], keys - {key};
        }
      case _ =>
    }
  }

  /** `optional.setdefault`, page after page: the first condition stated for a field stands. */
  function FirstConditions(show: Value -> string, pages: seq<Value>): map<string, string> {
    if pages == [] then map[]
    else PageConditions(show, pages[|pages| - 1]) + FirstConditions(show, pages[..|pages| - 1])
  }

  function PageConditions(show: Value -> string, page: Value): map<string, string> {
    map f | f in Conditions(page) :: show(Conditions(page)[f])
  }

  ghost predicate DeclaredBy(pages: seq<Value>, field: string) {
    exists k :: 0 <= k < |pages| && field in Declared(pages[k])
  }

  predicate CarriedByAll(items: seq<Value>, field: string) {
    forall k :: 0 <= k < |items| && items[k].Obj? ==> field in items[k].fields
  }

  predicate CarriedBySome(items: seq<Value>, field: string) {
    exists k :: 0 <= k < |items| && items[k].Obj? && field in items[k].fields
  }

  /** Page k is the first to state a condition for the field. */
  predicate FirstStated(pages: seq<Value>, field: string, k: int) {
    0 <= k < |pages| && field in Conditions(pages[k]) && forall j :: 0 <= j < k ==> field !in Conditions(pages[j])
  }

  predicate Conditional(pages: seq<Value>, field: string) {
    exists k :: 0 <= k < |pages| && field in Conditions(pages[k])
  }

  /** `_restate_row_fields`'s two lists: on every object row the declared fields no page called conditional and every
      one of them carries; as optional those some page called conditional, and those some rows carry and some do not. */
  ghost predicate SchemaHolds(listed: set<string>, optional: set<string>, pages: seq<Value>, items: seq<Value>) {
    && (forall field :: field in listed <==>
          && DeclaredBy(pages, field) && !Conditional(pages, field)
          && forall row :: row in items && row.Obj? ==> field in row.fields)
    && (forall field :: field in optional <==>
          || Conditional(pages, field)
          || (&& DeclaredBy(pages, field)
              && (exists row :: row in items && row.Obj? && field in row.fields)
              && (exists row :: row in items && row.Obj? && field !in row.fields)))
  }

  /** Each optional field has the condition first stated for it, or the one that says it was only observed. */
  ghost predicate ConditionsHold(show: Value -> string, stated: Fields, pages: seq<Value>) {
    && (forall field, k :: field in stated && FirstStated(pages, field, k) ==>
          stated[field] == Str(show(Conditions(pages[k])[field])))
    && (forall field :: field in stated && !Conditional(pages, field) ==> stated[field] == Str(OBSERVED_OPTIONAL))
  }

  lemma {:induction false} FirstConditionsAre(show: Value -> string, pages: seq<Value>, field: string)
    ensures field in FirstConditions(show, pages) <==> Conditional(pages, field)
    ensures forall k :: FirstStated(pages, field, k) ==>
              field in FirstConditions(show, pages) && FirstConditions(show, pages)[field] == show(Conditions(pages[k])[field])
  {
    if pages != [] {
      var before, last := pages[..|pages| - 1], pages[|pages| - 1];
      FirstConditionsAre(show, before, field);
      assert forall k :: 0 <= k < |before| ==> before[k] == pages[k];
      if Conditional(before, field) {
        var k :| 0 <= k < |before| && field in Conditions(before[k]);
        assert field in Conditions(pages[k]);
      }
      forall k | FirstStated(pages, field, k)
        ensures field in FirstConditions(show, pages) && FirstConditions(show, pages)[field] == show(Conditions(pages[k])[field])
      {
        if k < |before| {
          assert FirstStated(before, field, k);
        } else {
          assert !Conditional(before, field);
        }
      }
    }
  }

  /** `_restate_row_fields` on the aggregate; iterating a number raises. */
  method RestateRowFields(show: Value -> string, aggregate: Fields, pages: seq<Value>, items: seq<Value>)
    returns (out: Result<Fields, Failure>)
    ensures "row_fields" !in aggregate ==> out == Ok(aggregate)
    ensures "row_fields" in aggregate ==>
              (out.Ok? <==> forall k :: 0 <= k < |pages| ==> Iterable(Get(pages[k], "row_fields")))
    ensures out.Err? ==> out.error == TypeFault
    ensures out.Ok? && "row_fields" in aggregate ==>
              && "row_fields" in out.value && out.value["row_fields"].Arr?
              && out.value - {"row_fields", "row_fields_optional"} == aggregate - {"row_fields", "row_fields_optional"}
              && ("row_fields_optional" in out.value ==> out.value["row_fields_optional"].Obj?)
              && SchemaHolds(Yielded(out.value["row_fields"]), Conditions(Obj(out.value)).Keys, pages, items)
              && ConditionsHold(show, Conditions(Obj(out.value)), pages)
  {
    if "row_fields" !in aggregate {
      return Ok(aggregate);
    }
    var gathered := GatherColumns(show, pages);
    if gathered.Err? {
      return Err(gathered.error);
    }
    var (ordered, optional) := gathered.value;
    var fields := Keep(ordered, optional.Keys, items);
    var observed := Observe(ordered, fields, optional, items);
    SchemaOf(show, pages, items, ordered, fields, observed);
    ConditionsOf(show, pages, observed);
    out := Ok(Restated(aggregate, fields, observed));
    RestatedReads(aggregate, fields, observed);
  }

  /** The two keys written back; an empty conditional map is dropped. */
  function Restated(aggregate: Fields, fields: seq<string>, observed: map<string, string>): Fields {
    var rest := aggregate["row_fields" := Arr(Strings(fields))] - {"row_fields_optional"};
    if observed == map[] then rest
    else rest["row_fields_optional" := Obj(map f | f in observed :: Str(observed[f]))]
  }

  lemma RestatedReads(aggregate: Fields, fields: seq<string>, observed: map<string, string>)
    ensures var out := Restated(aggregate, fields, observed);
            && "row_fields" in out && out["row_fields"] == Arr(Strings(fields))
            && Yielded(out["row_fields"]) == (set f | f in fields)
            && out - {"row_fields", "row_fields_optional"} == aggregate - {"row_fields", "row_fields_optional"}
            && ("row_fields_optional" in out ==> out["row_fields_optional"].Obj?)
            && Conditions(Obj(out)) == map f | f in observed :: Str(observed[f])
  {
    StringsYielded(fields);
    var out := Restated(aggregate, fields, observed);
    assert Get(Obj(out), "row_fields_optional") ==
           if observed == map[] then Null else Obj(map f | f in observed :: Str(observed[f]));
  }

  /** The columns every page declares, in first-seen order, and the conditions stated for them. */
  method GatherColumns(show: Value -> string, pages: seq<Value>)
    returns (out: Result<(seq<string>, map<string, string>), Failure>)
    ensures out.Ok? <==> forall k :: 0 <= k < |pages| ==> Iterable(Get(pages[k], "row_fields"))
    ensures out.Err? ==> out.error == TypeFault
    ensures out.Ok? ==> out.value.1 == FirstConditions(show, pages)
    ensures out.Ok? ==> forall field :: field in out.value.0 || field in out.value.1 <==> DeclaredBy(pages, field)
  {
    var ordered: seq<string> := [];
    var optional: map<string, string> := map[];
    for i := 0 to |pages|
      invariant forall k :: 0 <= k < i ==> Iterable(Get(pages[k], "row_fields"))
      invariant optional == FirstConditions(show, pages[..i])
      invariant forall field :: field in ordered || field in optional <==> DeclaredBy(pages[..i], field)
    {
      if !Iterable(Get(pages[i], "row_fields")) {
        return Err(TypeFault);
      }
      ordered, optional := GatherPage(show, pages[..i], pages[i], ordered, optional);
      assert pages[..i + 1] == pages[..i] + [pages[i]];
    }
    assert pages[..|pages|] == pages;
    out := Ok((ordered, optional));
  }

  method GatherPage(show: Value -> string, ghost before: seq<Value>, page: Value,
                    ordered: seq<string>, optional: map<string, string>)
    returns (more: seq<string>, conditions: map<string, string>)
    requires Iterable(Get(page, "row_fields")) && optional == FirstConditions(show, before)
    requires forall field :: field in ordered || field in optional <==> DeclaredBy(before, field)
    ensures conditions == FirstConditions(show, before + [page])
    ensures forall field :: field in more || field in conditions <==> DeclaredBy(before + [page], field)
  {
    var names := FieldsOf(Get(page, "row_fields"));
    more := AddNew(ordered, names);
    GatherSnoc(show, before, page, ordered, names, more);
    conditions := PageConditions(show, page) + optional;
  }

  lemma GatherSnoc(show: Value -> string, before: seq<Value>, page: Value,
                   ordered: seq<string>, names: seq<string>, more: seq<string>)
    requires (set name | name in names) == Yielded(Get(page, "row_fields"))
    requires forall name :: name in more <==> name in ordered || name in names
    requires forall field :: field in ordered || field in FirstConditions(show, before) <==> DeclaredBy(before, field)
    ensures FirstConditions(show, before + [page]) == PageConditions(show, page) + FirstConditions(show, before)
    ensures forall field :: field in more || field in FirstConditions(show, before + [page])
                            <==> DeclaredBy(before + [page], field)
  {
    assert (before + [page])[..|before|] == before;
    forall field
      ensures field in more || field in FirstConditions(show, before + [page]) <==> DeclaredBy(before + [page], field)
    {
      DeclaredSnoc(before, page, field);
      assert field in names <==> field in set name | name in names;
    }
  }

  lemma DeclaredSnoc(pages: seq<Value>, page: Value, field: string)
    ensures DeclaredBy(pages + [page], field) <==> DeclaredBy(pages, field) || field in Declared(page)
  {
    if DeclaredBy(pages, field) {
      var k :| 0 <= k < |pages| && field in Declared(pages[k]);
      assert field in Declared((pages + [page])[k]);
    }
    if field in Declared(page) {
      assert field in Declared((pages + [page])[|pages|]);
    }
  }

  lemma SchemaOf(show: Value -> string, pages: seq<Value>, items: seq<Value>, ordered: seq<string>,
                 fields: seq<string>, observed: map<string, string>)
    requires forall field :: field in ordered || field in FirstConditions(show, pages) <==> DeclaredBy(pages, field)
    requires forall f :: f in fields <==> f in ordered && f !in FirstConditions(show, pages) && CarriedByAll(items, f)
    requires forall f :: f in observed <==>
               f in FirstConditions(show, pages) || (f in ordered && f !in fields && CarriedBySome(items, f))
    ensures SchemaHolds((set f | f in fields), observed.Keys, pages, items)
  {
    forall field
      ensures field in FirstConditions(show, pages) <==> Conditional(pages, field)
      ensures CarriedByAll(items, field) <==> !(exists row :: row in items && row.Obj? && field !in row.fields)
      ensures CarriedBySome(items, field) <==> exists row :: row in items && row.Obj? && field in row.fields
    {
      FirstConditionsAre(show, pages, field);
    }
  }

  lemma ConditionsOf(show: Value -> string, pages: seq<Value>, observed: map<string, string>)
    requires forall f :: f in observed ==>
               observed[f] == if f in FirstConditions(show, pages) then FirstConditions(show, pages)[f] else OBSERVED_OPTIONAL
    ensures ConditionsHold(show, map f | f in observed :: Str(observed[f]), pages)
  {
    forall field
      ensures field in FirstConditions(show, pages) <==> Conditional(pages, field)
      ensures forall k :: FirstStated(pages, field, k) ==>
                field in FirstConditions(show, pages) && FirstConditions(show, pages)[field] == show(Conditions(pages[k])[field])
    {
      FirstConditionsAre(show, pages, field);
    }
  }

  lemma StringsYielded(names: seq<string>)
    ensures Yielded(Arr(Strings(names))) == set name | name in names
  {
    forall name | name in names
      ensures Str(name) in Strings(names)
    {
      var k :| 0 <= k < |names| && names[k] == name;
      assert Strings(names)[k] == Str(name);
    }
  }

  method AddNew(ordered: seq<string>, names: seq<string>) returns (out: seq<string>)
    ensures forall name :: name in out <==> name in ordered || name in names
  {
    out := ordered;
    for i := 0 to |names|
      invariant forall name :: name in out <==> name in ordered || name in names[..i]
    {
      if names[i] !in out {
        out := out + [names[i]];
      }
      assert names[..i + 1] == names[..i] + [names[i]];
    }
    assert names[..|names|] == names;
  }

  method Keep(ordered: seq<string>, optional: set<string>, items: seq<Value>) returns (fields: seq<string>)
    ensures forall f :: f in fields <==> f in ordered && f !in optional && CarriedByAll(items, f)
  {
    fields := [];
    for i := 0 to |ordered|
      invariant forall f :: f in fields <==> f in ordered[..i] && f !in optional && CarriedByAll(items, f)
    {
      if ordered[i] !in optional && CarriedByAll(items, ordered[i]) {
        fields := fields + [ordered[i]];
      }
      assert ordered[..i + 1] == ordered[..i] + [ordered[i]];
    }
    assert ordered[..|ordered|] == ordered;
  }

  method Observe(ordered: seq<string>, fields: seq<string>, optional: map<string, string>, items: seq<Value>)
    returns (out: map<string, string>)
    ensures forall f :: f in out <==> f in optional || (f in ordered && f !in fields && CarriedBySome(items, f))
    ensures forall f :: f in out ==> out[f] == if f in optional then optional[f] else OBSERVED_OPTIONAL
  {
    out := optional;
    for i := 0 to |ordered|
      invariant forall f :: f in out <==> f in optional || (f in ordered[..i] && f !in fields && CarriedBySome(items, f))
      invariant forall f :: f in out ==> out[f] == if f in optional then optional[f] else OBSERVED_OPTIONAL
    {
      if ordered[i] !in fields && ordered[i] !in out && CarriedBySome(items, ordered[i]) {
        out := out[ordered[i] := OBSERVED_OPTIONAL];
      }
      assert ordered[..i + 1] == ordered[..i] + [ordered[i]];
    }
    assert ordered[..|ordered|] == ordered;
  }

  /** Scan coverage is cumulative: the last page's group replaces whatever the first page said. */
  method RefreshCoverage(aggregate: Fields, last: Fields) returns (out: Fields)
    ensures forall key :: key in COVERAGE ==> Get(Obj(out), key) == Get(Obj(last), key) && (key in out <==> key in last)
    ensures forall key :: key !in COVERAGE ==> Get(Obj(out), key) == Get(Obj(aggregate), key) && (key in out <==> key in aggregate)
  {
    out := aggregate;
    for i := 0 to |COVERAGE|
      invariant forall key :: key in COVERAGE[..i] ==> Get(Obj(out), key) == Get(Obj(last), key) && (key in out <==> key in last)
      invariant forall key :: key !in COVERAGE[..i] ==> Get(Obj(out), key) == Get(Obj(aggregate), key) && (key in out <==> key in aggregate)
    {
      var field := COVERAGE[i];
      out := out - {field};
      if field in last {
        out := out[field := last[field]];
      }
      assert COVERAGE[..i + 1] == COVERAGE[..i] + [field];
    }
    assert COVERAGE[..|COVERAGE|] == COVERAGE;
  }

  lemma CoverageIsApart()
    ensures "row_fields" !in COVERAGE && "row_fields_optional" !in COVERAGE
  {
    assert forall k :: 0 <= k < |COVERAGE| ==> |COVERAGE[k]| in {12, 14, 15, 16, 17, 21};
  }

  /** The envelope a caller receives: the keys `collect` always states, and the rest of the dict. */
  datatype Envelope = Envelope(items: seq<Value>, offset: int, returned: nat, total: Option<int>, hasMore: bool,
                               limit: Option<nat>, rest: Fields)

  /** What the first page leaves to the rest of the envelope. */
  function Others(page: Value): Fields {
    AsFields(page) - {"items", "offset", "returned", "total", "has_more", "limit"}
  }

  /** The envelope of a run that returned: its rows, the schema true of all of them, the last page's
      coverage, and everything else as the first page said. */
  ghost predicate EnvelopeHolds(show: Value -> string, out: Envelope, final: State, hasMore: bool, start: int, limit: Option<nat>)
    requires final.pages != [] && final.seen.Reported?
  {
    var first, last, v := Others(final.pages[0]), Others(final.pages[|final.pages| - 1]), Obj(out.rest);
    && out.items == final.items && out.returned == |final.items| && out.offset == start
    && out.total == final.seen.total && out.hasMore == hasMore && out.limit == limit
    && ("row_fields" in out.rest <==> "row_fields" in first)
    && ("row_fields" in first ==>
          && SchemaHolds(Yielded(Get(v, "row_fields")), Conditions(v).Keys, final.pages, final.items)
          && ConditionsHold(show, Conditions(v), final.pages))
    && ("row_fields" !in first ==> Get(v, "row_fields_optional") == Get(Obj(first), "row_fields_optional"))
    && (forall key :: key in COVERAGE ==> Get(v, key) == Get(Obj(last), key) && (key in out.rest <==> key in last))
    && (forall key :: key !in COVERAGE && key != "row_fields" && key != "row_fields_optional" ==>
          Get(v, key) == Get(Obj(first), key) && (key in out.rest <==> key in first))
  }

  method Assemble(show: Value -> string, final: State, hasMore: bool, start: int, limit: Option<nat>)
    returns (out: Result<Envelope, Failure>)
    requires final.pages != [] && final.seen.Reported?
    ensures out.Ok? ==> EnvelopeHolds(show, out.value, final, hasMore, start, limit)
    ensures out.Err? ==> out.error == TypeFault && exists k :: 0 <= k < |final.pages| && !Iterable(Get(final.pages[k], "row_fields"))
  {
    var first := Others(final.pages[0]);
    var restated := RestateRowFields(show, first, final.pages, final.items);
    if restated.Err? {
      return Err(restated.error);
    }
    var rest := RefreshCoverage(restated.value, Others(final.pages[|final.pages| - 1]));
    CoverageIsApart();
    out := Ok(Envelope(final.items, start, |final.items|, final.seen.total, hasMore, limit, rest));
    forall key | key != "row_fields" && key != "row_fields_optional"
      ensures Get(Obj(restated.value), key) == Get(Obj(first), key) && (key in restated.value <==> key in first)
    {
      if "row_fields" in first {
        var shared := {"row_fields", "row_fields_optional"};
        assert key in restated.value <==> key in restated.value - shared;
        assert key in first <==> key in first - shared;
      }
    }
  }

  /** The keys `collect` states itself, whatever a page said under them. */
  predicate StatedByCollect(key: string) {
    key == "items" || key == "offset" || key == "returned" || key == "total" || key == "has_more" || key == "limit"
  }

  lemma OthersAreTheRest(page: Value, key: string)
    ensures key in Others(page) <==> key in AsFields(page) && !StatedByCollect(key)
    ensures key in Others(page) ==> Others(page)[key] == AsFields(page)[key]
  {
  }

  // ----- `collect` -----

  /** `_require_row_fields`: a probed row must come with its schema. */
  predicate HasRowFields(page: Value) {
    var names := Get(page, "row_fields");
    && names.Arr? && (forall k :: 0 <= k < |names.items| ==> names.items[k].Str?)
    && ("row_fields_optional" in AsFields(page) ==>
          var optional := Get(page, "row_fields_optional");
          optional.Obj? && forall f :: f in optional.fields ==> optional.fields[f].Str?)
  }

  /** A page that has to come with its schema: it brings rows, or declares one. */
  predicate NamesRows(page: Value) {
    ItemsOf(page) != [] || "row_fields" in AsFields(page)
  }

  /** `limit=0`: one row probed for the schema and thrown away. */
  function Probe(env: Env, start: int): Result<Envelope, Failure> {
    if Expired(env, 1) then Err(TimedOut)
    else
      var reply := env.bridge(0, start, 1);
      if reply.Refusal? then Err(Transport)
      else
        var checked := ValidatePage(reply.page, start, 1, Unseen);
        if checked.Err? then Err(checked.error)
        else if (checked.value.items != [] || "row_fields" in AsFields(reply.page)) && !HasRowFields(reply.page)
        then Err(Malformed)
        else Ok(Envelope([], start, 0, checked.value.total, checked.value.items != [] || checked.value.hasMore,
                         Some(0), Others(reply.page)))
  }

  /** A schema is a list of names, and if conditions are stated, a text for each name they give. */
  predicate StatesColumns(page: Value) {
    var names, conditions := Get(page, "row_fields"), Get(page, "row_fields_optional");
    && names.Arr? && (forall name :: name in names.items ==> name.Str?)
    && ("row_fields_optional" in AsFields(page) ==>
          conditions.Obj? && forall key :: key in conditions.fields ==> conditions.fields[key].Str?)
  }

  /** A zero-row request is answered exactly when its one probed page is sound and, if it brings a row or a schema,
      states its columns; the row is thrown away, and only says that there is more. */
  lemma ProbeExactlyWhen(env: Env, start: int)
    requires !Expired(env, 1) && env.bridge(0, start, 1).Answer?
    ensures var page, out := env.bridge(0, start, 1).page, Probe(env, start);
            && (out.Ok? <==> StatesItself(page, start) && FitsTheList(page, start, 1, Unseen)
                             && (Get(page, "items") != Arr([]) || "row_fields" in page.fields ==> StatesColumns(page)))
            && (out.Ok? ==> && out.value.items == [] && out.value.offset == start && out.value.returned == 0
                            && out.value.limit == Some(0)
                            && (out.value.hasMore <==> Get(page, "items") != Arr([]) || Get(page, "has_more") == Bool(true))
                            && out.value.total == TotalOf(Get(page, "total")))
    ensures var page, out := env.bridge(0, start, 1).page, Probe(env, start);
            out.Ok? ==> forall key :: key in out.value.rest <==> key in AsFields(page) && !StatedByCollect(key)
  {
    var page := env.bridge(0, start, 1).page;
    AcceptedExactlyWhenSound(page, start, 1, Unseen);
    ColumnsAreStated(page);
    forall key
      ensures key in Others(page) <==> key in AsFields(page) && !StatedByCollect(key)
    {
      OthersAreTheRest(page, key);
    }
  }

  /** Why a zero-row request fails. */
  lemma ProbeFails(env: Env, start: int)
    ensures var due, reply := env.deadline.Some? && env.clock(1) >= env.deadline.value, env.bridge(0, start, 1);
            && (Probe(env, start) == Err(TimedOut) <==> due)
            && (Probe(env, start) == Err(Transport) <==> !due && reply.Refusal?)
            && (Probe(env, start).Err? && !due && reply.Answer? ==> Probe(env, start) == Err(Malformed))
  {
  }

  lemma ColumnsAreStated(page: Value)
    ensures HasRowFields(page) <==> StatesColumns(page)
  {
  }

  /** A zero-row request against an honest bridge that publishes its schema: no rows, and `has_more` says
      whether the list goes on at that offset. */
  lemma HonestProbe(env: Env, rows: seq<Value>, start: nat)
    requires Honest(env, rows) && !Expired(env, 1)
    requires env.bridge(0, start, 1).Answer? && NamesRows(env.bridge(0, start, 1).page) ==>
               HasRowFields(env.bridge(0, start, 1).page)
    ensures Probe(env, start).Ok?
    ensures var out := Probe(env, start).value;
            out.items == [] && out.returned == 0 && (out.hasMore <==> start < |rows|)
            && (out.total.Some? ==> out.total.value == |rows|)
  {
    assert HonestReply(env, rows, 0, start, 1);
    HonestPageIsAccepted(env.bridge(0, start, 1).page, rows, start, 1, Unseen);
  }

  ghost function Environment(bridge: (nat, int, nat) -> Reply, clock: nat -> int, pageSize: nat,
                             limit: Option<nat>, timeout: Option<int>): Env {
    Env(bridge, clock, pageSize, limit, if timeout.None? then None else Some(clock(0) + timeout.value))
  }

  /** `Client.collect` as it runs: the while loop over `offset`, `items`, `seen_total` and `pages`. */
  method Collect(show: Value -> string, bridge: (nat, int, nat) -> Reply, clock: nat -> int, start: int,
                 pageSize: int, limit: Option<int>, timeout: Option<int>)
    returns (out: Result<Envelope, Failure>)
    requires Advancing(clock)
    ensures pageSize < 1 || (limit.Some? && limit.value < 0) ==> out == Err(BadArgument)
    ensures pageSize >= 1 && limit == Some(0) ==> out == Probe(Environment(bridge, clock, pageSize, Some(0), timeout), start)
    ensures pageSize >= 1 && (limit.None? || limit.value > 0) ==>
              var asked: Option<nat> := if limit.None? then None else Some(limit.value);
              match Loop(Environment(bridge, clock, pageSize, asked, timeout), Begin(start))
              case Stop(why) => out == Err(why)
              case Done(final, hasMore) =>
                && (out.Ok? ==> final.pages != [] && final.seen.Reported? && EnvelopeHolds(show, out.value, final, hasMore, start, asked))
                && (out.Err? ==> out.error == TypeFault
                                 && exists k :: 0 <= k < |final.pages| && !Iterable(Get(final.pages[k], "row_fields")))
              case More(_) => false
  {
    if pageSize < 1 || (limit.Some? && limit.value < 0) {
      return Err(BadArgument);
    }
    var deadline := if timeout.None? then None else Some(clock(0) + timeout.value);
    if limit == Some(0) {
      return Probe(Env(bridge, clock, pageSize, Some(0), deadline), start);
    }
    var asked: Option<nat> := if limit.None? then None else Some(limit.value);
    var env := Env(bridge, clock, pageSize, asked, deadline);
    var turn := FetchPages(env, start);
    if turn.Stop? {
      return Err(turn.why);
    }
    LoopEndsRight(env, Begin(start));
    out := Assemble(show, turn.final, turn.hasMore, start, asked);
  }

  /** One turn of the loop: the deadline, the request, the checks on its page, and whether to go on. */
  method FetchPage(env: Env, calls: nat, offset: int, items: seq<Value>, seen: Total, pages: seq<Value>) returns (turn: Turn)
    requires Hungry(env, State(calls, offset, items, seen, pages))
    ensures turn == Step(env, State(calls, offset, items, seen, pages))
  {
    var requestLimit := if env.limit.None? then env.pageSize else Min(env.pageSize, env.limit.value - |items|);
    if env.deadline.Some? && env.deadline.value - env.clock(calls + 1) <= 0 {
      return Stop(TimedOut);
    }
    var reply := env.bridge(calls, offset, requestLimit);
    if reply.Refusal? {
      return Stop(Transport);
    }
    var checked := ValidatePage(reply.page, offset, requestLimit, seen);
    if checked.Err? {
      return Stop(checked.error);
    }
    var page := checked.value;
    if page.hasMore && env.limit.None? && env.deadline.None? && page.total.None? {
      return Stop(Unbounded);
    }
    var next := State(calls + 1, offset + |page.items|, items + page.items, Reported(page.total), pages + [reply.page]);
    if !page.hasMore || (env.limit.Some? && |next.items| >= env.limit.value) {
      return Done(next, page.hasMore);
    }
    turn := More(next);
  }

  /** The while loop of `collect`. */
  method FetchPages(env: Env, start: int) returns (turn: Turn)
    requires Hungry(env, Begin(start)) && Advancing(env.clock)
    ensures turn == Loop(env, Begin(start)) && !turn.More?
  {
    var calls, offset, items, seen, pages := 0, start, [], Unseen, [];
    ghost var st := Begin(start);
    while true
      invariant st == State(calls, offset, items, seen, pages) && Hungry(env, st)
      invariant Loop(env, st) == Loop(env, Begin(start))
      decreases Left(env, st), RowsLeft(st)
    {
      turn := FetchPage(env, calls, offset, items, seen, pages);
      if !turn.More? {
        return;
      }
      TurnsRunOut(env, st);
      st := turn.next;
      var next := turn.next;
      calls, offset, items, seen, pages := next.calls, next.offset, next.items, next.seen, next.pages;
    }
  }
}
