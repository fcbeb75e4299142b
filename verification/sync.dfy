/**
 * `main` of main.py: with rows in the table it polls page 1 of the user's
 * event feed until a page brings nothing newer than the newest row; the
 * bootstrap loop, which walks pages 1, 2, ... until an empty one, is
 * written for an empty table.
 */
module Sync {
  import opened Wrappers
  import opened Json
  import Timestamps
  import opened Store

  /**
   * `api.get_authenticated_user_events(page=p)`: the events the API answers
   * for page `p`. Any page may come back empty, as it does on a 5xx or 422;
   * within one run a page answers the same events every time.
   */
  type Feed = nat -> seq<Value>

  /** How a run of a loop ended: it broke out, an exception escaped, or the fuel ran out. */
  datatype Status = Finished | Crashed(error: Error) | OutOfFuel

  /**
   * What a run did: the table it left, the pages it requested and the pages
   * it committed, in order, and the final value of the `page` variable.
   */
  datatype Run = Run(table: Table, requests: seq<nat>, saves: seq<nat>, cursor: nat, status: Status)

  /**
   * One pass of the incremental loop: the table after it, whether a save was
   * committed, and `Ok(more)` for a pass that ended normally, where `more`
   * means the loop goes round again.
   */
  datatype Step = Step(table: Table, saved: bool, outcome: Result<bool, Error>)

  /** The last event of a non-empty page. */
  function Last(items: seq<Value>): Value
    requires items != []
  {
    items[|items| - 1]
  }

  /** Line 78: is the page's last event newer than the newest row's `created_at`? */
  function LastIsNewer(newest: Timestamps.Timestamp, items: seq<Value>): (r: Result<bool, Error>)
    requires items != []
    ensures r.Ok? <==> CreatedAt(Last(items)).Ok?
    ensures r.Ok? ==> (r.value <==> Timestamps.Before(newest, CreatedAt(Last(items)).value))
  {
    var last :- CreatedAt(Last(items));
    Ok(Timestamps.Before(newest, last))
  }

  /**
   * Lines 69-83, given the key of the newest row the query found: an empty
   * page stops the loop; otherwise the page is saved when its first event is
   * newer than the newest row, and the loop goes on when its last event is
   * newer than that row as it now stands. The commit of a save expires the
   * row object, so line 78 reads `created_at` again from the row with that
   * key, which the page may have rewritten.
   */
  function IncrementalStep(table: Table, newest: Option<int>, items: seq<Value>): (r: Step)
    requires newest.Some? ==> newest.value in table
    ensures items == [] ==> r == Step(table, false, Ok(false))
    ensures items != [] && newest.None? ==> r == Step(table, false, Err(AttributeError("created_at")))
    ensures r.outcome.Ok? && items != [] ==>
      && newest.Some? && CreatedAt(items[0]).Ok?
      && (r.saved <==> Timestamps.Before(table[newest.value].createdAt, CreatedAt(items[0]).value))
    ensures r.saved ==> items != [] && Save(table, items) == Ok(r.table)
    ensures !r.saved ==> r.table == table
    ensures table.Keys <= r.table.Keys
    ensures r.outcome.Ok? && items != [] ==>
      && newest.Some? && CreatedAt(Last(items)).Ok?
      && (r.outcome.value <==> Timestamps.Before(r.table[newest.value].createdAt, CreatedAt(Last(items)).value))
    ensures r.outcome.Err? <==>
      && items != []
      && (|| newest.None? || CreatedAt(items[0]).Err? || CreatedAt(Last(items)).Err?
          || (Timestamps.Before(table[newest.value].createdAt, CreatedAt(items[0]).value) && Save(table, items).Err?))
    ensures items != [] && newest.Some? && CreatedAt(items[0]).Err? ==> r == Step(table, false, Err(CreatedAt(items[0]).error))
    ensures
      && items != [] && newest.Some? && CreatedAt(items[0]).Ok?
      && Timestamps.Before(table[newest.value].createdAt, CreatedAt(items[0]).value) && Save(table, items).Err?
      ==> r == Step(table, false, Err(Save(table, items).error))
  {
    if items == [] then Step(table, false, Ok(false))
    else
      match newest
      case None => Step(table, false, Err(AttributeError("created_at")))
      case Some(k) =>
        match CreatedAt(items[0])
        case Err(err) => Step(table, false, Err(err))
        case Ok(first) =>
          if Timestamps.Before(table[k].createdAt, first) then
            match Save(table, items)
            case Err(err) => Step(table, false, Err(err))
            case Ok(after) => Step(after, true, LastIsNewer(after[k].createdAt, items))
          else
            Step(table, false, LastIsNewer(table[k].createdAt, items))
  }

  /**
   * A non-empty page as the feed orders it, newest first: no event is newer
   * than the first one or older than the last one.
   */
  predicate NewestFirst(items: seq<Value>) {
    && items != []
    && CreatedAt(items[0]).Ok? && CreatedAt(Last(items)).Ok?
    && forall i :: 0 <= i < |items| ==>
      && CreatedAt(items[i]).Ok?
      && !Timestamps.Before(CreatedAt(items[0]).value, CreatedAt(items[i]).value)
      && !Timestamps.Before(CreatedAt(items[i]).value, CreatedAt(Last(items)).value)
  }

  /** A non-empty page whose first event is no older than its last one. */
  predicate FirstNotBeforeLast(items: seq<Value>) {
    && items != []
    && CreatedAt(items[0]).Ok? && CreatedAt(Last(items)).Ok?
    && !Timestamps.Before(CreatedAt(items[0]).value, CreatedAt(Last(items)).value)
  }

  /** Some row of the table is no older than `t`. */
  ghost predicate Covers(table: Table, t: Timestamps.Timestamp) {
    exists k :: k in table && !Timestamps.Before(table[k].createdAt, t)
  }

  /**
   * The exception a pass on `table` raises on the non-empty page `items`, if
   * any, stated without the newest-row query: line 69 answers `None` on an
   * empty table, line 75 reads the first event's time, the page is saved
   * exactly when no row is as new as that time, and line 78 reads the last
   * event's time.
   */
  ghost function PassError(table: Table, items: seq<Value>): Option<Error>
    requires items != []
  {
    if table == map[] then Some(AttributeError("created_at"))
    else if CreatedAt(items[0]).Err? then Some(CreatedAt(items[0]).error)
    else if !Covers(table, CreatedAt(items[0]).value) && Save(table, items).Err? then Some(Save(table, items).error)
    else if CreatedAt(Last(items)).Err? then Some(CreatedAt(Last(items)).error)
    else None
  }

  /** A pass fails exactly with the exception `PassError` names, whichever newest row the query answers. */
  lemma StepFailsAsPassError(table: Table, newest: Option<int>, items: seq<Value>)
    requires IsNewest(table, newest) && items != []
    ensures IncrementalStep(table, newest, items).outcome.Err? <==> PassError(table, items).Some?
    ensures PassError(table, items).Some? ==> IncrementalStep(table, newest, items).outcome == Err(PassError(table, items).value)
  {
    if newest.Some? && CreatedAt(items[0]).Ok? {
      var k, first := newest.value, CreatedAt(items[0]).value;
      if Covers(table, first) {
        NoNewerThanCovered(table, k, first);
      } else {
        assert !(k in table && !Timestamps.Before(table[k].createdAt, first));
      }
    }
  }

  /** Once a pass has saved a page without failing, passes on the saved table do not fail either. */
  lemma NoErrorOnceSaved(table: Table, items: seq<Value>, after: Table)
    requires items != [] && PassError(table, items).None? && Save(table, items) == Ok(after)
    ensures PassError(after, items).None?
  {
    assert table.Keys <= after.Keys;
    assert after.Keys != {} by {
      assert table.Keys != {};
    }
    SaveIdempotent(table, items);
    assert Save(after, items).Ok?;
  }

  /**
   * A pass that goes on, on a page whose first event is no older than its
   * last, has saved the page, so the table then holds the last event's time.
   */
  lemma GoingOnSaved(table: Table, newest: Option<int>, items: seq<Value>)
    requires IsNewest(table, newest) && FirstNotBeforeLast(items)
    ensures IncrementalStep(table, newest, items).outcome == Ok(true) ==>
      && IncrementalStep(table, newest, items).saved
      && Covers(IncrementalStep(table, newest, items).table, CreatedAt(Last(items)).value)
  {
    var step := IncrementalStep(table, newest, items);
    if step.outcome == Ok(true) {
      var first, last := CreatedAt(items[0]).value, CreatedAt(Last(items)).value;
      if step.saved {
        SaveCoversLastItem(table, items);
      } else {
        Timestamps.BeforeIsStrictTotalOrder(table[newest.value].createdAt, last, first);
      }
    }
  }

  /**
   * A pass on a table that already holds a saved page, and with it the
   * page's last time, stops: saving again changes nothing, so line 78 reads
   * a row no older than that time.
   */
  lemma SavedPageStops(table: Table, newest: Option<int>, items: seq<Value>)
    requires IsNewest(table, newest) && items != [] && Save(table, items) == Ok(table)
    requires CreatedAt(Last(items)).Ok? && Covers(table, CreatedAt(Last(items)).value)
    ensures IncrementalStep(table, newest, items).outcome != Ok(true)
  {
    if newest.Some? {
      var k, last := newest.value, CreatedAt(Last(items)).value;
      NoNewerThanCovered(table, k, last);
      var step := IncrementalStep(table, newest, items);
      if step.saved {
        assert Save(table, items) == Ok(step.table);
      }
    }
  }

  /**
   * One pass of the incremental loop on the page it fetched: the query for
   * the newest row, line 69, then lines 71-83. The pass is `IncrementalStep`
   * for the key the query answered; that link is stated through a
   * quantifier so that a caller unfolds the step only where it names it.
   */
  method Pass(table: Table, items: seq<Value>) returns (newest: Option<int>, step: Step)
    ensures IsNewest(table, newest)
    ensures forall n {:trigger IncrementalStep(table, n, items)} ::
      n == newest ==> step == IncrementalStep(table, n, items)
  {
    newest := FirstByCreatedAt(table, true);
    step := IncrementalStep(table, newest, items);
  }

  /**
   * What any pass on `table` does, whichever newest row the query answers:
   * an empty page changes nothing and stops; the pass fails exactly as
   * `PassError` says; it saves the page or leaves the table alone; it stops
   * only once the table holds the page's last time; and it stops on a table
   * that already holds the saved page, or a newest-first page's last time.
   */
  lemma PassFacts(table: Table, items: seq<Value>, step: Step)
    requires PassOn(table, items, step)
    ensures items == [] ==> step == Step(table, false, Ok(false))
    ensures items != [] ==> (step.outcome.Err? <==> PassError(table, items).Some?)
    ensures step.outcome.Err? ==> items != [] && PassError(table, items) == Some(step.outcome.error)
    ensures table.Keys <= step.table.Keys
    ensures step.saved ==> Save(table, items) == Ok(step.table)
    ensures !step.saved ==> step.table == table
    ensures step.outcome == Ok(false) && items != [] ==>
      CreatedAt(Last(items)).Ok? && Covers(step.table, CreatedAt(Last(items)).value)
    ensures FirstNotBeforeLast(items) && step.outcome == Ok(true) ==>
      step.saved && Covers(step.table, CreatedAt(Last(items)).value)
    ensures
      && items != [] && Save(table, items) == Ok(table)
      && CreatedAt(Last(items)).Ok? && Covers(table, CreatedAt(Last(items)).value)
      ==> step.outcome != Ok(true)
    ensures NewestFirst(items) && Covers(table, CreatedAt(Last(items)).value) ==> step.outcome != Ok(true)
  {
    var newest :| IsNewest(table, newest) && step == IncrementalStep(table, newest, items);
    if step.outcome == Ok(false) && items != [] {
      assert newest.value in step.table;
    }
    if items != [] {
      StepFailsAsPassError(table, newest, items);
      if Save(table, items) == Ok(table) && CreatedAt(Last(items)).Ok? && Covers(table, CreatedAt(Last(items)).value) {
        SavedPageStops(table, newest, items);
      }
    }
    if FirstNotBeforeLast(items) {
      GoingOnSaved(table, newest, items);
    }
    if NewestFirst(items) {
      PassOnNewestFirstPage(table, newest, items);
    }
  }

  /** The table pass `i` runs on: the table the previous pass left, or `table` for the first. */
  function TableBefore(table: Table, steps: seq<Step>, i: nat): Table
    requires i <= |steps|
  {
    if i == 0 then table else steps[i - 1].table
  }

  /** The table a sequence of passes leaves. */
  function TableAfter(table: Table, steps: seq<Step>): Table {
    TableBefore(table, steps, |steps|)
  }

  /** How many of the passes saved the page. */
  function CountSaved(steps: seq<Step>): (r: nat)
    ensures r <= |steps|
  {
    if steps == [] then 0
    else CountSaved(steps[..|steps| - 1]) + if steps[|steps| - 1].saved then 1 else 0
  }

  /**
   * How the loop ends after these passes: an exception from the last pass
   * escapes, line 81 breaks out, and a pass where line 78 holds leaves the
   * loop going round, here out of fuel.
   */
  function StatusAfter(steps: seq<Step>): Status {
    if steps == [] then OutOfFuel
    else
      match steps[|steps| - 1].outcome
      case Err(err) => Crashed(err)
      case Ok(more) => if more then OutOfFuel else Finished
  }

  /** `step` is a pass on `before`, for a key the newest-row query may answer there. */
  ghost predicate PassOn(before: Table, items: seq<Value>, step: Step) {
    exists n :: IsNewest(before, n) && step == IncrementalStep(before, n, items)
  }

  /** `PassOn` over page `items`, as a relation between a table and a pass on it. */
  ghost function PassesOver(items: seq<Value>): (Table, Step) -> bool {
    (before, step) => PassOn(before, items, step)
  }

  /** Each of `steps` is related by `pass` to the table the one before it left. */
  ghost predicate Chains(table: Table, steps: seq<Step>, pass: (Table, Step) -> bool) {
    forall i :: 0 <= i < |steps| ==> pass(TableBefore(table, steps, i), steps[i])
  }

  /** `steps` are passes over page `items`, in order, each on the table the previous one left. */
  ghost predicate Traces(table: Table, items: seq<Value>, steps: seq<Step>) {
    Chains(table, steps, PassesOver(items))
  }

  /** Every pass but the last went on. */
  predicate WentOn(steps: seq<Step>) {
    forall i :: 0 <= i < |steps| - 1 ==> steps[i].outcome == Ok(true)
  }

  /** The passes of one run of the loop: every pass but the last went on. */
  ghost predicate LoopTrace(table: Table, items: seq<Value>, steps: seq<Step>) {
    Traces(table, items, steps) && WentOn(steps)
  }

  /** The loop goes round again only after a pass that went on. */
  lemma WentOnGrows(steps: seq<Step>, step: Step)
    requires WentOn(steps) && StatusAfter(steps) == OutOfFuel
    ensures WentOn(steps + [step])
  {
    if steps != [] {
      assert steps[|steps| - 1].outcome == Ok(true);
    }
  }

  /** A pass on the table a chain left extends the chain. */
  lemma ChainGrows(table: Table, steps: seq<Step>, step: Step, pass: (Table, Step) -> bool)
    requires Chains(table, steps, pass) && pass(TableAfter(table, steps), step)
    ensures Chains(table, steps + [step], pass)
    ensures TableAfter(table, steps + [step]) == step.table
    ensures CountSaved(steps + [step]) == CountSaved(steps) + if step.saved then 1 else 0
  {
    var grown := steps + [step];
    assert grown[..|steps|] == steps;
    forall i | 0 <= i < |grown|
      ensures pass(TableBefore(table, grown, i), grown[i])
    {
      if i < |steps| {
        assert TableBefore(table, grown, i) == TableBefore(table, steps, i);
      }
    }
  }

  /** The first `m` passes of a chain are a chain, and leave the table pass `m` runs on. */
  lemma ChainPrefix(table: Table, steps: seq<Step>, m: nat, pass: (Table, Step) -> bool)
    requires Chains(table, steps, pass) && m <= |steps|
    ensures Chains(table, steps[..m], pass)
    ensures TableAfter(table, steps[..m]) == TableBefore(table, steps, m)
  {
    forall i | 0 <= i < m
      ensures pass(TableBefore(table, steps[..m], i), steps[..m][i])
    {
      assert TableBefore(table, steps[..m], i) == TableBefore(table, steps, i);
    }
  }

  /** Pass `i` of a trace is a pass on the table the one before it left. */
  lemma TraceAt(table: Table, items: seq<Value>, steps: seq<Step>, i: nat)
    requires Traces(table, items, steps) && i < |steps|
    ensures PassOn(TableBefore(table, steps, i), items, steps[i])
  {
    assert PassesOver(items)(TableBefore(table, steps, i), steps[i]);
  }

  /**
   * A non-empty page whose first event is newer than every row, and that
   * builds: line 76 saves it.
   */
  ghost predicate SavesPage(table: Table, items: seq<Value>) {
    && items != [] && table != map[]
    && CreatedAt(items[0]).Ok? && !Covers(table, CreatedAt(items[0]).value)
    && Save(table, items).Ok?
  }

  /** A pass saves the page exactly as `SavesPage` says, whichever newest row the query answers. */
  lemma StepSavesAsSavesPage(table: Table, newest: Option<int>, items: seq<Value>)
    requires IsNewest(table, newest)
    ensures IncrementalStep(table, newest, items).saved <==> SavesPage(table, items)
  {
    if items != [] && newest.Some? && CreatedAt(items[0]).Ok? {
      var k, first := newest.value, CreatedAt(items[0]).value;
      if Covers(table, first) {
        NoNewerThanCovered(table, k, first);
      } else {
        assert !(k in table && !Timestamps.Before(table[k].createdAt, first));
      }
    }
  }

  /**
   * Passes over one page save it at most once: the first pass saves it
   * exactly when `SavesPage` holds, and a later save stores the same rows
   * again, so the table is the one before the run or the page saved on it.
   */
  lemma {:induction false} TraceSaves(table: Table, items: seq<Value>, steps: seq<Step>)
    requires Traces(table, items, steps)
    ensures table.Keys <= TableAfter(table, steps).Keys
    ensures CountSaved(steps) == 0 ==> TableAfter(table, steps) == table
    ensures CountSaved(steps) > 0 ==> Save(table, items) == Ok(TableAfter(table, steps))
    ensures steps != [] ==> (CountSaved(steps) > 0 <==> SavesPage(table, items))
  {
    if steps != [] {
      var m := |steps| - 1;
      ChainPrefix(table, steps, m, PassesOver(items));
      TraceSaves(table, items, steps[..m]);
      var t := TableBefore(table, steps, m);
      TraceAt(table, items, steps, m);
      var n :| IsNewest(t, n) && steps[m] == IncrementalStep(t, n, items);
      if CountSaved(steps[..m]) == 0 {
        StepSavesAsSavesPage(table, n, items);
      } else {
        SaveIdempotent(table, items);
        if steps[m].saved {
          assert Save(t, items) == Ok(steps[m].table);
        }
      }
    }
  }

  /**
   * Only the first pass of a run can fail, and it fails exactly when
   * `PassError` names an exception; an empty page ends the run after one
   * pass that changes nothing.
   */
  lemma TraceErrors(table: Table, items: seq<Value>, steps: seq<Step>)
    requires LoopTrace(table, items, steps) && steps != []
    ensures items == [] ==> steps == [Step(table, false, Ok(false))]
    ensures StatusAfter(steps).Crashed? ==>
      |steps| == 1 && items != [] && PassError(table, items) == Some(StatusAfter(steps).error)
    ensures items != [] && PassError(table, items).Some? ==> StatusAfter(steps).Crashed?
  {
    assert
      && (items == [] ==> steps[0] == Step(table, false, Ok(false)))
      && (items != [] ==> (steps[0].outcome.Err? <==> PassError(table, items).Some?))
      && (items != [] && PassError(table, items).Some? ==> steps[0].outcome == Err(PassError(table, items).value))
    by {
      TraceAt(table, items, steps, 0);
      var n :| IsNewest(table, n) && steps[0] == IncrementalStep(table, n, items);
      if items != [] {
        StepFailsAsPassError(table, n, items);
      }
    }
    if |steps| > 1 {
      NoPassFails(table, items, steps, |steps| - 1);
    }
  }

  /** On a page `PassError` finds nothing wrong with, no pass of a trace fails. */
  lemma NoPassFails(table: Table, items: seq<Value>, steps: seq<Step>, m: nat)
    requires Traces(table, items, steps) && m < |steps|
    requires items != [] && PassError(table, items).None?
    ensures !steps[m].outcome.Err?
  {
    ChainPrefix(table, steps, m, PassesOver(items));
    TraceSaves(table, items, steps[..m]);
    var t := TableBefore(table, steps, m);
    if CountSaved(steps[..m]) > 0 {
      NoErrorOnceSaved(table, items, t);
    }
    TraceAt(table, items, steps, m);
    var k :| IsNewest(t, k) && steps[m] == IncrementalStep(t, k, items);
    StepFailsAsPassError(t, k, items);
  }

  /** A run that broke out at line 81 left a row no older than the page's last event. */
  lemma TraceFinishes(table: Table, items: seq<Value>, steps: seq<Step>)
    requires Traces(table, items, steps)
    ensures StatusAfter(steps) == Finished && items != [] ==>
      CreatedAt(Last(items)).Ok? && Covers(TableAfter(table, steps), CreatedAt(Last(items)).value)
  {
    if steps != [] {
      var m := |steps| - 1;
      TraceAt(table, items, steps, m);
      var n :| IsNewest(TableBefore(table, steps, m), n) && steps[m] == IncrementalStep(TableBefore(table, steps, m), n, items);
      if steps[m].outcome == Ok(false) && items != [] {
        assert n.value in steps[m].table;
      }
    }
  }

  /**
   * On a page whose first event is no older than its last, a run makes at
   * most two passes, and a second pass does not go on: the first one that
   * goes on has saved the page, and a second save changes nothing.
   */
  lemma TraceBound(table: Table, items: seq<Value>, steps: seq<Step>)
    requires LoopTrace(table, items, steps) && FirstNotBeforeLast(items)
    ensures |steps| <= 2
    ensures |steps| == 2 ==> StatusAfter(steps) != OutOfFuel
  {
    if |steps| >= 2 {
      assert steps[1].outcome != Ok(true) by {
        TraceAt(table, items, steps, 0);
        TraceAt(table, items, steps, 1);
        SecondPassStops(table, items, steps[0], steps[1]);
      }
    }
  }

  /** On a page whose first event is no older than its last, the pass after one that went on stops. */
  lemma SecondPassStops(table: Table, items: seq<Value>, first: Step, second: Step)
    requires FirstNotBeforeLast(items) && PassOn(table, items, first) && first.outcome == Ok(true)
    requires PassOn(first.table, items, second)
    ensures second.outcome != Ok(true)
  {
    var n :| IsNewest(table, n) && first == IncrementalStep(table, n, items);
    GoingOnSaved(table, n, items);
    SaveIdempotent(table, items);
    var k :| IsNewest(first.table, k) && second == IncrementalStep(first.table, k, items);
    SavedPageStops(first.table, k, items);
  }

  /** A newest-first page whose last time the table already holds takes one pass. */
  lemma TraceOnCoveredPage(table: Table, items: seq<Value>, steps: seq<Step>)
    requires LoopTrace(table, items, steps) && NewestFirst(items)
    requires Covers(table, CreatedAt(Last(items)).value)
    ensures |steps| <= 1
  {
    if |steps| >= 2 {
      TraceAt(table, items, steps, 0);
      var n :| IsNewest(table, n) && steps[0] == IncrementalStep(table, n, items);
      PassOnNewestFirstPage(table, n, items);
    }
  }

  /**
   * A page the loop polls for ever: its first event is no newer than some
   * row, so line 75 never saves it, and its last event is newer than every
   * row, so line 78 always holds.
   */
  ghost predicate Spins(table: Table, items: seq<Value>) {
    && items != [] && table != map[]
    && CreatedAt(items[0]).Ok? && Covers(table, CreatedAt(items[0]).value)
    && CreatedAt(Last(items)).Ok? && !Covers(table, CreatedAt(Last(items)).value)
  }

  /** On a page that spins, a pass saves nothing and goes on, leaving the table as it was. */
  lemma SpinningPassRepeats(table: Table, items: seq<Value>, step: Step)
    requires Spins(table, items) && PassOn(table, items, step)
    ensures step == Step(table, false, Ok(true))
  {
    var n :| IsNewest(table, n) && step == IncrementalStep(table, n, items);
    var k, first, last := n.value, CreatedAt(items[0]).value, CreatedAt(Last(items)).value;
    NoNewerThanCovered(table, k, first);
    assert !(k in table && !Timestamps.Before(table[k].createdAt, last));
  }

  /**
   * On a page that spins, a run saves nothing, so every pass runs on the
   * table as it was, and the last one goes on like the others.
   */
  lemma TraceSpins(table: Table, items: seq<Value>, steps: seq<Step>)
    requires Traces(table, items, steps) && Spins(table, items)
    ensures TableAfter(table, steps) == table && CountSaved(steps) == 0 && StatusAfter(steps) == OutOfFuel
  {
    TraceSaves(table, items, steps);
    if steps != [] {
      var m := |steps| - 1;
      UnsavedPageKeepsTable(table, items, steps, m);
      TraceAt(table, items, steps, m);
      SpinningPassRepeats(TableBefore(table, steps, m), items, steps[m]);
    }
  }

  /** Passes over a page that `SavesPage` rules out all run on the table as it was. */
  lemma UnsavedPageKeepsTable(table: Table, items: seq<Value>, steps: seq<Step>, m: nat)
    requires Traces(table, items, steps) && m <= |steps| && !SavesPage(table, items)
    ensures TableBefore(table, steps, m) == table
  {
    ChainPrefix(table, steps, m, PassesOver(items));
    TraceSaves(table, items, steps[..m]);
  }

  /** The pass that follows `steps`, on the table they left: it extends the trace. */
  method NextPass(table: Table, items: seq<Value>, steps: seq<Step>) returns (step: Step)
    requires Traces(table, items, steps)
    ensures Traces(table, items, steps + [step])
    ensures TableAfter(table, steps + [step]) == step.table
    ensures CountSaved(steps + [step]) == CountSaved(steps) + if step.saved then 1 else 0
  {
    var newest;
    newest, step := Pass(TableAfter(table, steps), items);
    assert PassesOver(items)(TableAfter(table, steps), step) by {
      assert IsNewest(TableAfter(table, steps), newest) && step == IncrementalStep(TableAfter(table, steps), newest, items);
    }
    ChainGrows(table, steps, step, PassesOver(items));
  }

  /**
   * `run` is what the incremental loop reports after making the passes
   * `steps` with `fuel` passes to spend: a request and a save of page 1 per
   * pass and per save, the table the passes left, and the status the last
   * pass decided, with the fuel spent when that status is to go on.
   */
  predicate Reports(table: Table, fuel: nat, steps: seq<Step>, run: Run) {
    && |steps| <= fuel
    && run.requests == Repeat(1, |steps|) && run.saves == Repeat(1, CountSaved(steps))
    && run.table == TableAfter(table, steps) && run.status == StatusAfter(steps)
    && run.cursor == |steps| + (if run.status == OutOfFuel then 1 else 0)
    && (run.status == OutOfFuel ==> |steps| == fuel)
  }

  /**
   * What a run of the incremental loop leaves in the table: the page saved
   * once, exactly when `SavesPage` holds, or nothing; on a page that spins,
   * nothing, with all the fuel spent going round.
   */
  lemma RunSaves(table: Table, fetch: Feed, fuel: nat, steps: seq<Step>, run: Run)
    requires Traces(table, fetch(1), steps) && Reports(table, fuel, steps, run)
    ensures table.Keys <= run.table.Keys
    ensures |run.saves| == 0 ==> run.table == table
    ensures |run.saves| > 0 ==> Save(table, fetch(1)) == Ok(run.table)
    ensures |run.saves| > 0 <==> fuel >= 1 && SavesPage(table, fetch(1))
    ensures Spins(table, fetch(1)) ==> run == Run(table, Repeat(1, fuel), [], fuel + 1, OutOfFuel)
  {
    RepeatIsConstant(1, CountSaved(steps));
    assert fuel >= 1 ==> steps != [];
    TraceSaves(table, fetch(1), steps);
    if Spins(table, fetch(1)) {
      TraceSpins(table, fetch(1), steps);
    }
  }

  /**
   * How a run of the incremental loop ends: an empty page after one pass,
   * an exception only from the first pass and exactly when `PassError`
   * names one, a break only once the table holds the page's last time, and
   * at most two passes on a page whose first event is no older than its
   * last.
   */
  lemma RunStops(table: Table, fetch: Feed, fuel: nat, steps: seq<Step>, run: Run)
    requires LoopTrace(table, fetch(1), steps) && Reports(table, fuel, steps, run)
    ensures fuel >= 1 && fetch(1) == [] ==> run == Run(table, [1], [], 1, Finished)
    ensures run.status == Finished ==>
      || fetch(1) == []
      || (CreatedAt(Last(fetch(1))).Ok? && Covers(run.table, CreatedAt(Last(fetch(1))).value))
    ensures run.status.Crashed? ==>
      |run.requests| == 1 && fetch(1) != [] && PassError(table, fetch(1)) == Some(run.status.error)
    ensures fuel >= 1 && fetch(1) != [] && PassError(table, fetch(1)).Some? ==> run.status.Crashed?
    ensures FirstNotBeforeLast(fetch(1)) && fuel >= 2 ==> run.status != OutOfFuel && |run.requests| <= 2
    ensures NewestFirst(fetch(1)) && Covers(table, CreatedAt(Last(fetch(1))).value) && fuel >= 1 ==>
      |run.requests| == 1
  {
    RepeatIsConstant(1, |steps|);
    assert fuel >= 1 ==> steps != [];
    TraceFinishes(table, fetch(1), steps);
    if steps != [] {
      TraceErrors(table, fetch(1), steps);
    }
    if FirstNotBeforeLast(fetch(1)) {
      TraceBound(table, fetch(1), steps);
    }
    if NewestFirst(fetch(1)) && Covers(table, CreatedAt(Last(fetch(1))).value) {
      TraceOnCoveredPage(table, fetch(1), steps);
    }
  }

  /**
   * The incremental loop, lines 68-83, for at most `fuel` passes, with the
   * passes it made. Every request is for page 1: `page` is counted up but
   * never sent, so every save stores page 1 again. Each pass is
   * `IncrementalStep` on the table the previous one left, every pass but
   * the last went on, and the last decides how the run ends. An empty page
   * ends the run at once. An exception can only come from the first pass:
   * a later pass sees the same page, on the table as it was or with that
   * page saved.
   */
  method Incremental(table: Table, fetch: Feed, fuel: nat) returns (run: Run, steps: seq<Step>)
    ensures LoopTrace(table, fetch(1), steps)
    ensures |steps| == |run.requests|
    ensures run.status == StatusAfter(steps)
    ensures run.table == TableAfter(table, steps)
    ensures |run.saves| == CountSaved(steps)
    ensures run.requests == Repeat(1, |run.requests|)
    ensures run.saves == Repeat(1, |run.saves|)
    ensures |run.saves| <= |run.requests| <= fuel
    ensures run.cursor == |run.requests| + (if run.status == OutOfFuel then 1 else 0)
    ensures run.status == OutOfFuel ==> |run.requests| == fuel
    ensures table.Keys <= run.table.Keys
    ensures |run.saves| == 0 ==> run.table == table
    ensures |run.saves| > 0 ==> Save(table, fetch(1)) == Ok(run.table)
    ensures |run.saves| > 0 <==> fuel >= 1 && SavesPage(table, fetch(1))
    ensures fuel >= 1 && fetch(1) == [] ==> run == Run(table, [1], [], 1, Finished)
    ensures run.status == Finished ==>
      || fetch(1) == []
      || (CreatedAt(Last(fetch(1))).Ok? && Covers(run.table, CreatedAt(Last(fetch(1))).value))
    ensures run.status.Crashed? ==>
      |run.requests| == 1 && fetch(1) != [] && PassError(table, fetch(1)) == Some(run.status.error)
    ensures fuel >= 1 && fetch(1) != [] && PassError(table, fetch(1)).Some? ==> run.status.Crashed?
    ensures FirstNotBeforeLast(fetch(1)) && fuel >= 2 ==> run.status != OutOfFuel && |run.requests| <= 2
    ensures NewestFirst(fetch(1)) && Covers(table, CreatedAt(Last(fetch(1))).value) && fuel >= 1 ==>
      |run.requests| == 1
    ensures Spins(table, fetch(1)) ==> run == Run(table, Repeat(1, fuel), [], fuel + 1, OutOfFuel)
  {
    run, steps := Loop(table, fetch, fuel);
    RepeatIsConstant(1, |steps|);
    RepeatIsConstant(1, CountSaved(steps));
    RunSaves(table, fetch, fuel, steps, run);
    RunStops(table, fetch, fuel, steps, run);
  }

  /**
   * Lines 68-83 as a loop: each round fetches page 1, makes a pass on the
   * table the previous passes left, and counts the request, the save and
   * the `page` variable; a pass that fails or breaks out ends the loop.
   */
  method Loop(table: Table, fetch: Feed, fuel: nat) returns (run: Run, steps: seq<Step>)
    ensures LoopTrace(table, fetch(1), steps) && Reports(table, fuel, steps, run)
  {
    var t := table;
    var passes, saved := 0, 0;
    var page := 1;
    var status := OutOfFuel;
    steps := [];
    while passes < fuel && status == OutOfFuel
      invariant passes <= fuel
      invariant page == passes + (if status == OutOfFuel then 1 else 0)
      invariant LoopTrace(table, fetch(1), steps)
      invariant |steps| == passes
      invariant status == StatusAfter(steps)
      invariant t == TableAfter(table, steps)
      invariant saved == CountSaved(steps)
    {
      var step := NextPass(table, fetch(1), steps);
      WentOnGrows(steps, step);
      steps := steps + [step];
      passes := passes + 1;
      if step.saved {
        saved := saved + 1;
      }
      t := step.table;
      match step.outcome
      case Err(err) =>
        status := Crashed(err);
      case Ok(more) =>
        if more {
          page := page + 1;
        } else {
          status := Finished;
        }
    }
    RepeatIsConstant(1, passes);
    RepeatIsConstant(1, saved);
    run := Run(t, Repeat(1, passes), Repeat(1, saved), page, status);
  }

  /** `newest` is the key the query for the newest row can answer on `table`. */
  ghost predicate IsNewest(table: Table, newest: Option<int>) {
    && (newest.None? <==> table == map[])
    && (newest.Some? ==> newest.value in table)
    && (newest.Some? ==> forall k :: k in table ==> ComesFirst(table[newest.value].createdAt, table[k].createdAt, true))
  }

  /** Keys the query may answer with hold rows of the same `created_at`. */
  lemma NewestIsUnique(table: Table, a: Option<int>, b: Option<int>)
    requires IsNewest(table, a) && IsNewest(table, b)
    ensures a.None? <==> b.None?
    ensures a.Some? ==> table[a.value].createdAt == table[b.value].createdAt
  {
    if a.Some? {
      var ka, kb := a.value, b.value;
      assert ComesFirst(table[ka].createdAt, table[kb].createdAt, true);
      assert ComesFirst(table[kb].createdAt, table[ka].createdAt, true);
      Timestamps.BeforeIsStrictTotalOrder(table[ka].createdAt, table[kb].createdAt, table[ka].createdAt);
    }
  }

  /** Rows tied for newest lead a pass to the same decision to save the page. */
  lemma TiedNewestRowsDecideAlike(table: Table, a: Option<int>, b: Option<int>, items: seq<Value>)
    requires IsNewest(table, a) && IsNewest(table, b)
    ensures IncrementalStep(table, a, items).saved == IncrementalStep(table, b, items).saved
  {
    NewestIsUnique(table, a, b);
    if items != [] && a.Some? && CreatedAt(items[0]).Ok? {
      var first := CreatedAt(items[0]).value;
      assert Timestamps.Before(table[a.value].createdAt, first) == Timestamps.Before(table[b.value].createdAt, first);
    }
  }

  /**
   * Whichever of several rows tied for newest the query answers, the pass
   * leaves the same table; when it does not save, it is the same pass. Only
   * the re-read after a save can tell the tied rows apart.
   */
  lemma TiedNewestRowsSaveAlike(table: Table, a: Option<int>, b: Option<int>, items: seq<Value>)
    requires IsNewest(table, a) && IsNewest(table, b)
    ensures IncrementalStep(table, a, items).table == IncrementalStep(table, b, items).table
    ensures !IncrementalStep(table, a, items).saved ==> IncrementalStep(table, a, items) == IncrementalStep(table, b, items)
  {
    TiedNewestRowsDecideAlike(table, a, b, items);
    var sa, sb := IncrementalStep(table, a, items), IncrementalStep(table, b, items);
    if sa.saved {
      assert Ok(sa.table) == Save(table, items) == Ok(sb.table);
    } else {
      NewestIsUnique(table, a, b);
    }
  }

  /**
   * On a newest-first page, a pass on a table that already holds the page's
   * last time stops, even when the save rewrote the newest row: the row it
   * now holds is one of the page's events, none older than the last.
   */
  lemma PassOnNewestFirstPage(table: Table, newest: Option<int>, items: seq<Value>)
    requires NewestFirst(items) && IsNewest(table, newest)
    ensures Covers(table, CreatedAt(Last(items)).value) ==> IncrementalStep(table, newest, items).outcome != Ok(true)
  {
    var step := IncrementalStep(table, newest, items);
    var last := CreatedAt(Last(items)).value;
    if Covers(table, last) && newest.Some? {
      var k := newest.value;
      NoNewerThanCovered(table, k, last);
      if step.saved {
        SavedRowComesFromTableOrBatch(table, items, step.table, k);
      }
    }
  }

  /** The newest row is no older than a time some row reaches. */
  lemma NoNewerThanCovered(table: Table, newest: int, t: Timestamps.Timestamp)
    requires Covers(table, t)
    requires newest in table
    requires forall k :: k in table ==> ComesFirst(table[newest].createdAt, table[k].createdAt, true)
    ensures !Timestamps.Before(table[newest].createdAt, t)
  {
    var k :| k in table && !Timestamps.Before(table[k].createdAt, t);
    Timestamps.NotBeforeTransitive(table[newest].createdAt, table[k].createdAt, t);
  }

  /** A way of storing a page of raw events; `main` uses `save_github_events`, that is `Store.Save`. */
  type Saver = (Table, seq<Value>) -> Result<Table, Error>

  /** Saving pages 1 to `n` of the feed in order with `save`, stopping at the first failure. */
  function SaveAll(save: Saver, table: Table, fetch: Feed, n: nat): Result<Table, Error> {
    if n == 0 then Ok(table)
    else
      var before :- SaveAll(save, table, fetch, n - 1);
      save(before, fetch(n))
  }

  /** The pages `1, 2, ..., n`, in order. */
  function Pages(n: nat): seq<nat> {
    if n == 0 then [] else Pages(n - 1) + [n]
  }

  lemma {:induction false} PagesAreConsecutive(n: nat)
    ensures |Pages(n)| == n && forall i :: 0 <= i < n ==> Pages(n)[i] == i + 1
  {
    if n > 0 {
      PagesAreConsecutive(n - 1);
    }
  }

  /** Pages `1` to `n` of the feed all have events. */
  predicate NonEmptyUpTo(fetch: Feed, n: nat) {
    n == 0 || (fetch(n) != [] && NonEmptyUpTo(fetch, n - 1))
  }

  lemma {:induction false} NonEmptyUpToMeans(fetch: Feed, n: nat)
    ensures NonEmptyUpTo(fetch, n) <==> forall p :: 1 <= p <= n ==> fetch(p) != []
  {
    if n > 0 {
      NonEmptyUpToMeans(fetch, n - 1);
    }
  }

  /** `n` copies of page `p`. */
  function Repeat(p: nat, n: nat): seq<nat> {
    if n == 0 then [] else Repeat(p, n - 1) + [p]
  }

  lemma {:induction false} RepeatIsConstant(p: nat, n: nat)
    ensures |Repeat(p, n)| == n && forall i :: 0 <= i < n ==> Repeat(p, n)[i] == p
  {
    if n > 0 {
      RepeatIsConstant(p, n - 1);
    }
  }

  /**
   * The bootstrap loop, lines 56-66, for at most `fuel` pages: it requests
   * pages 1, 2, 3, ..., saves each page that has events, and stops at the
   * first empty one.
   */
  method Bootstrap(table: Table, fetch: Feed, save: Saver, fuel: nat) returns (run: Run)
    ensures run.requests == Pages(|run.requests|) && |run.requests| <= fuel
    ensures run.cursor == |run.requests| + (if run.status == OutOfFuel then 1 else 0)
    ensures run.status == OutOfFuel ==> run.saves == run.requests && |run.requests| == fuel
    ensures run.status == Finished ==>
      run.requests == run.saves + [|run.requests|] && fetch(|run.requests|) == []
    ensures run.status.Crashed? ==>
      && run.requests == run.saves + [|run.requests|]
      && save(run.table, fetch(|run.requests|)) == Err(run.status.error)
    ensures NonEmptyUpTo(fetch, |run.saves|)
    ensures SaveAll(save, table, fetch, |run.saves|) == Ok(run.table)
  {
    var t := table;
    var saves: seq<nat> := [];
    var page := 1;
    while |saves| < fuel
      invariant |saves| <= fuel
      invariant page == |saves| + 1
      invariant saves == Pages(|saves|)
      invariant NonEmptyUpTo(fetch, |saves|)
      invariant SaveAll(save, table, fetch, |saves|) == Ok(t)
    {
      var items := fetch(page);
      if items == [] {
        return Run(t, saves + [page], saves, page, Finished);
      }
      match save(t, items)
      case Err(err) =>
        return Run(t, saves + [page], saves, page, Crashed(err));
      case Ok(after) =>
        t := after;
      saves := saves + [page];
      page := page + 1;
    }
    return Run(t, saves, saves, page, OutOfFuel);
  }

  /**
   * `main`, lines 53-83. The oldest row's `created_at` is read before the
   * `None` test, so an empty table fails with `AttributeError` before the
   * bootstrap loop; a non-empty one runs the incremental loop, whose
   * passes are returned as well.
   */
  method Sync(table: Table, fetch: Feed, fuel: nat) returns (run: Run, steps: seq<Step>)
    ensures table == map[] ==> run == Run(table, [], [], 1, Crashed(AttributeError("created_at"))) && steps == []
    ensures table != map[] ==>
      && LoopTrace(table, fetch(1), steps) && |steps| == |run.requests|
      && run.status == StatusAfter(steps) && run.table == TableAfter(table, steps)
      && |run.saves| == CountSaved(steps)
    ensures table != map[] ==> (|run.saves| > 0 <==> fuel >= 1 && SavesPage(table, fetch(1)))
    ensures Spins(table, fetch(1)) ==> run == Run(table, Repeat(1, fuel), [], fuel + 1, OutOfFuel)
    ensures table != map[] ==> forall i :: 0 <= i < |run.requests| ==> run.requests[i] == 1
    ensures table != map[] ==> table.Keys <= run.table.Keys
    ensures table != map[] && |run.saves| == 0 ==> run.table == table
    ensures table != map[] && |run.saves| > 0 ==> Save(table, fetch(1)) == Ok(run.table)
    ensures table != map[] && run.status == Finished ==>
      || fetch(1) == []
      || (CreatedAt(Last(fetch(1))).Ok? && Covers(run.table, CreatedAt(Last(fetch(1))).value))
    ensures table != map[] && fuel >= 1 && fetch(1) == [] ==> run == Run(table, [1], [], 1, Finished)
    ensures table != map[] && run.status.Crashed? ==>
      |run.requests| == 1 && fetch(1) != [] && PassError(table, fetch(1)) == Some(run.status.error)
    ensures table != map[] && fuel >= 1 && fetch(1) != [] && PassError(table, fetch(1)).Some? ==> run.status.Crashed?
    ensures table != map[] && FirstNotBeforeLast(fetch(1)) && fuel >= 2 ==>
      run.status != OutOfFuel && |run.requests| <= 2
    ensures table != map[] && NewestFirst(fetch(1)) && Covers(table, CreatedAt(Last(fetch(1))).value) && fuel >= 1 ==>
      |run.requests| == 1
    ensures KeyedById(table) ==> KeyedById(run.table)
  {
    var oldest := FirstByCreatedAt(table, false);
    match oldest
    case None =>
      run, steps := Run(table, [], [], 1, Crashed(AttributeError("created_at"))), [];
    case Some(_) =>
      run, steps := Incremental(table, fetch, fuel);
      RepeatIsConstant(1, |run.requests|);
      if |run.saves| > 0 && KeyedById(table) {
        SaveKeepsKeyedById(table, fetch(1), run.table);
      }
  }
}
