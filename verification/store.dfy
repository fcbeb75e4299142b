/**
 * The `github_events` table of my_github/models.py and what main.py does to
 * it: `save_github_events` merges a batch of raw events by primary key, and
 * `main` asks for the oldest or newest row by `created_at`.
 */
module Store {
  import opened Wrappers
  import opened Json
  import Timestamps
  import EventParser

  /** A row of `github_events`, one field per column. */
  datatype EventRow = EventRow(
    id: int, eventType: Value, actorId: Value, actorLogin: Value, repoId: Value, repoName: Value,
    payload: Value, public: Value, orgId: Value, orgLogin: Value, createdAt: Timestamps.Timestamp)

  /** The table, keyed by its primary key `id`. */
  type Table = map<int, EventRow>

  /**
   * The `BigInteger` primary key receiving the event's `id`: an integer is
   * kept, a decimal string is converted, anything else is refused.
   */
  function ColumnId(v: Value): (r: Result<int, Error>)
    ensures r.Ok? <==> v.Int? || (v.Str? && v.s != [] && Timestamps.AllDigits(v.s))
    ensures r.Ok? && v.Int? ==> r.value == v.i
    ensures r.Ok? && v.Str? ==> r.value >= 0 && Timestamps.Digits(r.value, |v.s|) == v.s
    ensures r.Err? ==> r.error == DataError("id")
  {
    match v
    case Int(i) => Ok(i)
    case Str(s) =>
      if s != [] && Timestamps.AllDigits(s) then
        Timestamps.ValueThenDigits(s);
        Ok(Timestamps.DigitsValue(s))
      else Err(DataError("id"))
    case _ => Err(DataError("id"))
  }

  /**
   * The `DateTime` column receiving the event's `created_at` text. The
   * conversion accepts exactly the GitHub timestamp format.
   */
  function ColumnCreatedAt(v: Value): (r: Result<Timestamps.Timestamp, Error>)
    ensures r.Ok? <==> Timestamps.FromGithubTime(v).Ok?
    ensures r.Ok? ==> Timestamps.FromGithubTime(v) == Ok(r.value)
    ensures r.Err? ==> r.error == DataError("created_at")
  {
    match Timestamps.FromGithubTime(v)
    case Ok(t) => Ok(t)
    case Err(_) => Err(DataError("created_at"))
  }

  /** `datetime_from_github_time(e['created_at'])`. */
  function CreatedAt(e: Value): (r: Result<Timestamps.Timestamp, Error>)
    ensures r.Ok? <==> HasKey(e, "created_at") && Timestamps.FromGithubTime(e.fields["created_at"]).Ok?
    ensures r.Ok? ==> Timestamps.Valid(r.value) && Timestamps.Format(r.value) == e.fields["created_at"].s
  {
    match Get(e, "created_at")
    case Err(err) => Err(err)
    case Ok(text) => Timestamps.FromGithubTime(text)
  }

  /** The raw events `GitHubEvent(...)` can read every keyword argument from. */
  predicate Readable(e: Value) {
    && HasKey(e, "id") && HasKey(e, "type")
    && EventParser.Has2(e, "actor", "id") && EventParser.Has2(e, "actor", "login")
    && EventParser.Has2(e, "repo", "id") && EventParser.Has2(e, "repo", "name")
    && HasKey(e, "payload") && HasKey(e, "public")
    && (HasKey(e, "org") ==> EventParser.Has2(e, "org", "id") && EventParser.Has2(e, "org", "login"))
    && HasKey(e, "created_at")
  }

  /** The raw events a row can be built from. */
  predicate Buildable(e: Value) {
    && Readable(e)
    && ColumnId(e.fields["id"]).Ok? && Timestamps.FromGithubTime(e.fields["created_at"]).Ok?
  }

  /** The keyword arguments of `GitHubEvent(...)`, as read from a raw event. */
  datatype Arguments = Arguments(
    id: Value, eventType: Value, actor: (Value, Value), repo: (Value, Value),
    payload: Value, public: Value, org: (Value, Value), createdText: Value)

  /** The keyword arguments of lines 31-43, evaluated in source order. */
  function ReadArguments(e: Value): (r: Result<Arguments, Error>)
    ensures r.Ok? <==> Readable(e)
    ensures !e.Object? ==> r == Err(TypeError("subscript"))
    ensures r.Ok? ==>
      && r.value.id == e.fields["id"] && r.value.eventType == e.fields["type"]
      && r.value.actor == (e.fields["actor"].fields["id"], e.fields["actor"].fields["login"])
      && r.value.repo == (e.fields["repo"].fields["id"], e.fields["repo"].fields["name"])
      && r.value.payload == e.fields["payload"] && r.value.public == e.fields["public"]
      && r.value.createdText == e.fields["created_at"]
    ensures r.Ok? && HasKey(e, "org") ==> r.value.org == (e.fields["org"].fields["id"], e.fields["org"].fields["login"])
    ensures r.Ok? && !HasKey(e, "org") ==> r.value.org == (Null, Null)
  {
    var id :- Get(e, "id");
    var eventType :- Get(e, "type");
    var actor :- EventParser.Pair(e, "actor", "login");
    var repo :- EventParser.Pair(e, "repo", "name");
    var payload :- Get(e, "payload");
    var public :- Get(e, "public");
    var org :- EventParser.OrgPair(e);
    var createdText :- Get(e, "created_at");
    Ok(Arguments(id, eventType, actor, repo, payload, public, org, createdText))
  }

  /**
   * `GitHubEvent(id=e['id'], ...)`: the keyword arguments are evaluated in
   * source order, then the columns convert the id and the timestamp.
   */
  function BuildRow(e: Value): (r: Result<EventRow, Error>)
    ensures r.Ok? <==> Buildable(e)
    ensures !e.Object? ==> r == Err(TypeError("subscript"))
    ensures r.Ok? ==>
      && ColumnId(e.fields["id"]) == Ok(r.value.id)
      && r.value.eventType == e.fields["type"]
      && r.value.actorId == e.fields["actor"].fields["id"]
      && r.value.actorLogin == e.fields["actor"].fields["login"]
      && r.value.repoId == e.fields["repo"].fields["id"]
      && r.value.repoName == e.fields["repo"].fields["name"]
      && r.value.payload == e.fields["payload"] && r.value.public == e.fields["public"]
    ensures r.Ok? && HasKey(e, "org") ==>
      r.value.orgId == e.fields["org"].fields["id"] && r.value.orgLogin == e.fields["org"].fields["login"]
    ensures r.Ok? && !HasKey(e, "org") ==> r.value.orgId == Null && r.value.orgLogin == Null
    ensures r.Ok? ==> CreatedAt(e) == Ok(r.value.createdAt)
  {
    var args :- ReadArguments(e);
    var key :- ColumnId(args.id);
    var createdAt :- ColumnCreatedAt(args.createdText);
    Ok(EventRow(
      key, args.eventType, args.actor.0, args.actor.1, args.repo.0, args.repo.1,
      args.payload, args.public, args.org.0, args.org.1, createdAt))
  }

  /**
   * Applies `f` to each element in order, stopping at the first failure,
   * which is the failure of the whole.
   */
  function Collect<T, U(==), E(==)>(f: T -> Result<U, E>, xs: seq<T>): (r: Result<seq<U>, E>)
    ensures r.Ok? <==> forall i :: 0 <= i < |xs| ==> f(xs[i]).Ok?
    ensures r.Ok? ==> |r.value| == |xs| && forall i :: 0 <= i < |xs| ==> f(xs[i]) == Ok(r.value[i])
    ensures r.Err? ==> exists i :: FirstFailure(f, xs, i) && f(xs[i]) == Err(r.error)
  {
    if xs == [] then Ok([])
    else
      match f(xs[0])
      case Err(err) =>
        assert FirstFailure(f, xs, 0);
        Err(err)
      case Ok(y) =>
        match Collect(f, xs[1..])
        case Err(err) =>
          var i :| FirstFailure(f, xs[1..], i) && f(xs[1..][i]) == Err(err);
          assert FirstFailure(f, xs, i + 1);
          Err(err)
        case Ok(ys) =>
          assert forall i :: 1 <= i < |xs| ==> xs[i] == xs[1..][i - 1];
          Ok([y] + ys)
  }

  /** Element `i` is the first on which `f` fails. */
  predicate FirstFailure<T, U, E>(f: T -> Result<U, E>, xs: seq<T>, i: int) {
    && 0 <= i < |xs| && f(xs[i]).Err?
    && forall j :: 0 <= j < i ==> f(xs[j]).Ok?
  }

  /** The rows of a batch, in order; the first event that cannot become a row stops the batch. */
  function BuildRows(batch: seq<Value>): Result<seq<EventRow>, Error> {
    Collect(BuildRow, batch)
  }

  /** The primary keys a batch of rows carries. */
  function Ids(rows: seq<EventRow>): set<int> {
    set row | row in rows :: row.id
  }

  /** Row `i` is the last one of the batch with its id. */
  predicate IsLast(rows: seq<EventRow>, i: int) {
    0 <= i < |rows| && forall j :: i < j < |rows| ==> rows[j].id != rows[i].id
  }

  /**
   * `after` is `before` with the batch merged in: the batch's ids are added,
   * each holds the last row the batch has for it, and every other row is
   * untouched.
   */
  ghost predicate Upserted(before: Table, rows: seq<EventRow>, after: Table) {
    && after.Keys == before.Keys + Ids(rows)
    && (forall k :: k in before && k !in Ids(rows) ==> k in after && after[k] == before[k])
    && (forall i :: IsLast(rows, i) ==> rows[i].id in after && after[rows[i].id] == rows[i])
  }

  /** `session.merge` of each row in turn: a later row with the same id replaces an earlier one. */
  function Merge(table: Table, rows: seq<EventRow>): (r: Table)
    ensures Upserted(table, rows, r)
    decreases |rows|
  {
    if rows == [] then table
    else
      var r := Merge(table[rows[0].id := rows[0]], rows[1..]);
      MergeStep(table, rows, r);
      r
  }

  /** Merging the first row and then the rest is merging the whole batch. */
  lemma MergeStep(table: Table, rows: seq<EventRow>, after: Table)
    requires rows != []
    requires Upserted(table[rows[0].id := rows[0]], rows[1..], after)
    ensures Upserted(table, rows, after)
  {
    var head, tail := rows[0], rows[1..];
    assert rows == [head] + tail;
    assert Ids(rows) == {head.id} + Ids(tail);
    forall k | k in table && k !in Ids(rows)
      ensures k in after && after[k] == table[k]
    {
      assert k != head.id;
    }
    forall i | IsLast(rows, i)
      ensures rows[i].id in after && after[rows[i].id] == rows[i]
    {
      if i > 0 {
        assert tail[i - 1] == rows[i];
        assert IsLast(tail, i - 1);
      } else {
        LastHeadIsNotInTail(rows);
      }
    }
  }

  /** A first row that no later row shares an id with is absent from the rest. */
  lemma LastHeadIsNotInTail(rows: seq<EventRow>)
    requires IsLast(rows, 0)
    ensures rows[0].id !in Ids(rows[1..])
  {
    forall row | row in rows[1..]
      ensures row.id != rows[0].id
    {
      var j :| 0 <= j < |rows[1..]| && rows[1..][j] == row;
      assert rows[j + 1] == row;
    }
  }

  /**
   * `save_github_events`: nothing happens for an empty batch; otherwise the
   * batch's rows are merged and committed together, so an exception leaves
   * the table as it was.
   */
  function Save(table: Table, batch: seq<Value>): (r: Result<Table, Error>)
    ensures batch == [] ==> r == Ok(table)
    ensures r.Ok? <==> BuildRows(batch).Ok?
    ensures r.Ok? ==> Upserted(table, BuildRows(batch).value, r.value)
    ensures r.Err? ==> r.error == BuildRows(batch).error
  {
    if batch == [] then Ok(table)
    else
      var rows :- BuildRows(batch);
      Ok(Merge(table, rows))
  }

  /** Each row is filed under its own id. */
  ghost predicate KeyedById(table: Table) {
    forall k :: k in table ==> table[k].id == k
  }

  /** Every id of a batch has a last occurrence. */
  lemma {:induction false} HasLastOccurrence(rows: seq<EventRow>, i: int)
    requires 0 <= i < |rows|
    ensures exists j :: IsLast(rows, j) && rows[j].id == rows[i].id
    decreases |rows| - i
  {
    if !IsLast(rows, i) {
      var j :| i < j < |rows| && rows[j].id == rows[i].id;
      HasLastOccurrence(rows, j);
    }
  }

  /** Merging files each row under its own id. */
  lemma {:induction false} MergeKeepsKeyedById(table: Table, rows: seq<EventRow>)
    requires KeyedById(table)
    ensures KeyedById(Merge(table, rows))
  {
    var after := Merge(table, rows);
    forall k | k in after
      ensures after[k].id == k
    {
      if k in Ids(rows) {
        var row :| row in rows && row.id == k;
        var i :| 0 <= i < |rows| && rows[i] == row;
        HasLastOccurrence(rows, i);
      }
    }
  }

  /** Saving files each row under its own id. */
  lemma SaveKeepsKeyedById(table: Table, batch: seq<Value>, after: Table)
    requires KeyedById(table) && Save(table, batch) == Ok(after)
    ensures KeyedById(after)
  {
    if batch != [] {
      MergeKeepsKeyedById(table, BuildRows(batch).value);
    }
  }

  /** The merge result is determined by the table and the batch. */
  lemma UpsertedUnique(before: Table, rows: seq<EventRow>, a: Table, b: Table)
    requires Upserted(before, rows, a) && Upserted(before, rows, b)
    ensures a == b
  {
    forall k | k in a
      ensures a[k] == b[k]
    {
      if k in Ids(rows) {
        var row :| row in rows && row.id == k;
        var i :| 0 <= i < |rows| && rows[i] == row;
        HasLastOccurrence(rows, i);
      }
    }
  }

  /** Merging a batch into a table that already holds its rows changes nothing. */
  lemma MergeIdempotent(table: Table, rows: seq<EventRow>)
    ensures Merge(Merge(table, rows), rows) == Merge(table, rows)
  {
    var once := Merge(table, rows);
    assert Upserted(once, rows, once);
    UpsertedUnique(once, rows, Merge(once, rows), once);
  }

  /** Saving the same batch twice leaves the table as saving it once. */
  lemma SaveIdempotent(table: Table, batch: seq<Value>)
    requires Save(table, batch).Ok?
    ensures Save(Save(table, batch).value, batch) == Save(table, batch)
  {
    if batch != [] {
      MergeIdempotent(table, BuildRows(batch).value);
    }
  }

  /** After a non-empty save, the batch's last event is in the table with its own timestamp. */
  lemma SaveCoversLastItem(table: Table, batch: seq<Value>)
    requires batch != [] && Save(table, batch).Ok?
    ensures CreatedAt(batch[|batch| - 1]).Ok?
    ensures exists k ::
      && k in Save(table, batch).value
      && Save(table, batch).value[k].createdAt == CreatedAt(batch[|batch| - 1]).value
  {
    var rows := BuildRows(batch).value;
    var last := |batch| - 1;
    assert IsLast(rows, last);
    assert BuildRow(batch[last]) == Ok(rows[last]);
  }

  /** After a merge, every row is the row the table had or a row of the batch. */
  lemma MergedRowComesFromTableOrBatch(table: Table, rows: seq<EventRow>, k: int)
    requires k in Merge(table, rows)
    ensures (k in table && Merge(table, rows)[k] == table[k]) || exists i :: 0 <= i < |rows| && rows[i] == Merge(table, rows)[k]
  {
    var after := Merge(table, rows);
    if k in Ids(rows) {
      var row :| row in rows && row.id == k;
      var i :| 0 <= i < |rows| && rows[i] == row;
      HasLastOccurrence(rows, i);
      var j :| IsLast(rows, j) && rows[j].id == k;
      assert after[k] == rows[j];
    }
  }

  /**
   * After a save, every row is the row the table had or a row built from an
   * event of the batch: the merge invents nothing.
   */
  lemma SavedRowComesFromTableOrBatch(table: Table, batch: seq<Value>, after: Table, k: int)
    requires Save(table, batch) == Ok(after) && k in after
    ensures (k in table && after[k] == table[k]) || exists i :: 0 <= i < |batch| && BuildRow(batch[i]) == Ok(after[k])
  {
    if batch != [] {
      var rows := BuildRows(batch).value;
      MergedRowComesFromTableOrBatch(table, rows, k);
      if !(k in table && after[k] == table[k]) {
        var i :| 0 <= i < |rows| && rows[i] == after[k];
        assert BuildRow(batch[i]) == Ok(rows[i]);
      }
    }
  }

  /** Row `a` comes no later than row `b` in the order `created_at` ascending, or descending. */
  predicate ComesFirst(a: Timestamps.Timestamp, b: Timestamps.Timestamp, descending: bool) {
    if descending then !Timestamps.Before(a, b) else !Timestamps.Before(b, a)
  }

  /**
   * `session.query(GitHubEvent).order_by(GitHubEvent.created_at).first()`:
   * the primary key of a row no other row precedes in the order, or `None`
   * for an empty table. The object the query answers is identified by that
   * key: after a commit its attributes are loaded again from that row.
   * Rows with equal timestamps may come back in any order.
   */
  method FirstByCreatedAt(table: Table, descending: bool) returns (key: Option<int>)
    ensures key.None? <==> table == map[]
    ensures key.Some? ==> key.value in table
    ensures key.Some? ==> forall k :: k in table ==> ComesFirst(table[key.value].createdAt, table[k].createdAt, descending)
  {
    key := None;
    var rest := table.Keys;
    while rest != {}
      invariant rest <= table.Keys
      invariant key.None? <==> rest == table.Keys
      invariant key.Some? ==> key.value in table
      invariant key.Some? ==>
        forall k :: k in table && k !in rest ==> ComesFirst(table[key.value].createdAt, table[k].createdAt, descending)
      decreases rest
    {
      assert exists k :: k in rest by {
        if forall k :: k !in rest {
          assert false;
        }
      }
      var k :| k in rest;
      var candidate := table[k].createdAt;
      Timestamps.BeforeIsStrictTotalOrder(candidate, candidate, candidate);
      if key.None? {
        key := Some(k);
      } else if !ComesFirst(table[key.value].createdAt, candidate, descending) {
        var best := table[key.value].createdAt;
        forall other | other in table && other !in rest
          ensures ComesFirst(candidate, table[other].createdAt, descending)
        {
          var t := table[other].createdAt;
          Timestamps.BeforeIsStrictTotalOrder(best, candidate, t);
          if descending {
            Timestamps.NotBeforeTransitive(candidate, best, t);
          } else {
            Timestamps.NotBeforeTransitive(t, best, candidate);
          }
        }
        key := Some(k);
      }
      rest := rest - {k};
    }
  }
}
