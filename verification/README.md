# my-github event sync, modelled in Dafny

The program keeps a local copy of a GitHub user's event feed in a table
called `github_events`. This project models two parts of it and proves
properties about both.

1. **The event normaliser** (`EventParser`). It turns one raw GitHub event,
   a nested JSON mapping, into a flat record.
   - It always writes twelve common keys.
   - It then looks up a per-type extension by the lower-cased name
     `transform_<type>`. There are extensions for push, pull-request, issues,
     issue-comment and commit-comment events.
2. **The sync loop** (`main.py`).
   - `save_github_events` merges a batch of raw events into the table by
     primary key.
   - `main` reads the oldest row, then either walks pages 1, 2, 3, … of the
     feed, or polls page 1 while it brings events newer than the newest row.

## Layout

| file | module | contents |
|---|---|---|
| `wrappers.dfy` | `Wrappers` | `Option` and `Result`, usable with `:-` |
| `json.dfy` | `Json` | Decoded JSON (`Null` is both JSON `null` and Python `None`). The Python exceptions the code can raise. Subscript (`Get`) and `dict.get` (`GetOptional`). |
| `timestamps.dfy` | `Timestamps` | The `%Y-%m-%dT%H:%M:%SZ` parser, its inverse `Format`, and datetime order `Before`. |
| `event_parser.dfy` | `EventParser` | `Transform`, its common part, name-based dispatch, the five extensions, and `__getattr__`. |
| `store.dfy` | `Store` | Table rows, building a row from a raw event, the merge/commit of a batch, and the oldest/newest-row query. |
| `sync.dfy` | `Sync` | One pass of the incremental loop, the two loops, and `main`. |

The feed is a function from page number to a list of decoded events
(`Sync.Feed`). Any page may be empty, as the HTTP client answers `[]` on a
5xx or 422 status. Within one run a page answers the same list every time it
is requested. The Python loops are `while True`. Each loop here takes a
`fuel` bound and reports `OutOfFuel` when the bound runs out.

The newest-row query answers a row object, identified by its primary key.
`session.commit()` at the end of a save expires that object, so line 78 of
main.py reads `created_at` again from the row with that key. The page just
saved may have rewritten that row. The model passes the key
(`Store.FirstByCreatedAt`), and `Sync.IncrementalStep` compares line 78
against the row as it stands after the save.

## Behaviour modelled as the code has it

In three places the code shows one intention and does something else. The
model follows what the code does.

- **Pull requests never get `commit_sha`.** Lines 56-57 of
  my_github/event_parser.py test the action against `ACTION_ENUM.CLOSED`,
  and when the test holds they copy `merge_commit_sha` into `commit_sha`. The
  action is the decoded string, and a plain `Enum` member equals only itself,
  so the test never holds. See `EventParser.PyEquals`,
  `EventParser.DecodedNeverEqualsMember` and
  `EventParser.PullRequestHasNoCommitSha`.
- **An empty table makes `main` fail.** Lines 58-59 of main.py test
  `if not oldest_event` and log that this is the first call, before the loop
  that walks every page. Line 54 formats `oldest_event.created_at` first. On
  an empty table that raises `AttributeError`, so the branch is never reached
  (`Sync.Sync`). `Sync.Bootstrap` models that loop on its own.
- **The incremental loop always fetches page 1.** Lines 79-80 count `page` up
  under the comment "There are more events", but line 70 always requests
  `page=1`. In `Sync.Incremental` every request and every save is of page 1.
  When the loop ends, `page` equals the number of passes, because the last
  pass does not count it up. When the fuel runs out, it is one more.
- **Some pages make the incremental loop poll for ever.** Take a page whose
  first event is no newer than the newest row, and whose last event is newer.
  Line 75 never saves it, so the table never changes. Line 78 then holds on
  every pass, so the loop never breaks out. This happens when page 1 is not
  ordered newest first. `Sync.Spins` names such a page. `Sync.SpinningPassRepeats`
  proves that each pass repeats the one before. `Sync.Incremental` and
  `Sync.Sync` state that such a run saves nothing and spends all its fuel.

The code lets `KeyError`, `TypeError`, `ValueError` and `AttributeError`
escape, and the model returns those as `Err` values. `main.py` builds rows
straight from raw events and does not use `EventParser`, so the two halves of
the model are independent.

## Model

| member | source | states |
|---|---|---|
| Timestamps.Parse | main.py:22-23 | A parsed datetime is always a real calendar datetime. Any text that does not fit the format fails with `ValueError` carrying that text. |
| Timestamps.FormatThenParse | main.py:22-23 | Parsing the formatted text of any valid datetime gives the same datetime back. |
| Timestamps.ParseThenFormat | main.py:22-23 | A text that parses is exactly the formatted text of its value: the format is fixed-width and has a single spelling. |
| Timestamps.FromGithubTime | main.py:22-23 | `datetime_from_github_time` succeeds exactly on strings that parse, and its result formats back to the input string. A non-string raises `TypeError`. |
| Timestamps.NotBeforeTransitive | main.py:75-78 | "Not later than" on datetimes is transitive, which the newest-row comparisons rely on. |
| EventParser.PyEquals | my_github/event_parser.py:56 | Python `==` on the objects the parser compares: an enum member equals only an enum member, and two members are equal exactly when they are the same member. |
| EventParser.DecodedNeverEqualsMember | my_github/event_parser.py:5-11 | No decoded JSON value equals an `ACTION_ENUM` member, not even the member's own string such as `'closed'`. |
| EventParser.OrgPair | my_github/event_parser.py:32-33 | `org_id`/`org_login` come from `e['org']` when the key is present, are `None` when it is absent, and fail when `org` lacks `id` or `login`. |
| EventParser.CommonFields | my_github/event_parser.py:22-36 | The common values exist exactly when every subscripted key exists, `payload` is a dict and `created_at` parses. Each value is copied verbatim. `org_*` is `None` exactly without `org`. `action` is `payload['action']` or `None`. `created_at` is the parsed datetime. |
| EventParser.CommonRecord | my_github/event_parser.py:23-36 | The common record has exactly the twelve common keys. |
| EventParser.Lower | my_github/event_parser.py:37 | The model's lower-casing keeps the length and maps each character on its own, `A`–`Z` to `a`–`z` and every other character to itself. |
| EventParser.LowerAppend | my_github/event_parser.py:37 | Lower-casing distributes over concatenation. |
| EventParser.Dispatch | my_github/event_parser.py:37-39 | A handler is selected only for a string type, and only the one whose type name is the lower-cased type. When no handler's type name is the lower-cased type, none is selected. |
| EventParser.DispatchByName | my_github/event_parser.py:37-39 | Dispatch picks exactly the handler whose method name equals `f'transform_{type}'.lower()`. When no handler has that name, it picks none. |
| EventParser.DispatchIgnoresCase | my_github/event_parser.py:37-38 | Two spellings of a type that differ only in case select the same handler. |
| EventParser.PushEventFields | my_github/event_parser.py:42-44 | The push handler adds exactly `commit_sha`, equal to `payload['head']`, and fails without `head`. |
| EventParser.PullRequestEventFields | my_github/event_parser.py:46-58 | The pull-request handler succeeds exactly when `number` and the four `pull_request` fields exist. It adds exactly `pr_number`, `node_id`, `additions`, `deletions` and `changed_files`, copied verbatim. |
| EventParser.PullRequestHasNoCommitSha | my_github/event_parser.py:56-57 | A successfully parsed pull-request event has no `commit_sha`, whatever its action. |
| EventParser.NodeIdFields | my_github/event_parser.py:60-73 | The issues, issue-comment and commit-comment handlers add exactly `node_id`, copied from `payload[holder]['node_id']`, and fail without it. |
| EventParser.Extend | my_github/event_parser.py:42-73 | A handler succeeds exactly when the payload has what it reads, and adds exactly its own keys. |
| EventParser.AddedKeysAreNew | my_github/event_parser.py:42-73 | No handler adds a common key. |
| EventParser.Update | my_github/event_parser.py:37-40 | The update succeeds exactly when the selected handler (if any) succeeds. The keys become the common keys plus the handler's, and the handler's values are copied from the payload. |
| EventParser.UpdateKeepsCommon | my_github/event_parser.py:38-40 | The update never changes a common key's value. |
| EventParser.Transform | my_github/event_parser.py:20-40 | Construction succeeds exactly on well-formed events. The record's keys are the twelve common keys plus the dispatched handler's, and the common values are the raw ones. |
| EventParser.UnknownTypeKeepsCommonRecord | my_github/event_parser.py:37-40 | An event whose type has no handler becomes exactly the common record. It fails only when the common fields do. |
| EventParser.KeyNamed | my_github/event_parser.py:75-77 | Maps an attribute name to the record key spelled that way, or to none when no key is spelled so. |
| EventParser.KeyNamedInvertsKeyName | my_github/event_parser.py:75-77 | Every key of the record is found again by its own Python name, so a name denotes at most one key. |
| EventParser.Attribute | my_github/event_parser.py:75-79 | Reading an attribute succeeds exactly when the record has a key of that name, and returns that key's value. Otherwise it raises `AttributeError(name)`. |
| Store.ColumnId | my_github/models.py:9 | The primary key accepts an integer or a non-empty decimal string. The stored value of a string prints back to that string, and anything else is refused. |
| Store.ColumnCreatedAt | my_github/models.py:21 | The `created_at` column accepts exactly the GitHub timestamp text, and refuses anything else with a `DataError`. |
| Store.CreatedAt | main.py:75 | `datetime_from_github_time(e['created_at'])` succeeds exactly when the key exists and its text parses, and the result formats back to the text. |
| Store.ReadArguments | main.py:31-43 | The constructor's keyword arguments are read exactly when every key it subscripts exists, and each is copied verbatim; `org_*` is `None` without `org`. A non-dict event raises `TypeError`. |
| Store.BuildRow | main.py:31-43 | A row is built exactly from events that have every key the constructor reads and a convertible id and timestamp. The fields are copied verbatim, and `org_*` is `None` without `org`. |
| Store.Collect | main.py:30-43 | Building a batch succeeds exactly when every event builds, element by element. Otherwise it fails with the error of the first event that does not build. |
| Store.Merge | main.py:30-43 | After the merge, the keys are the old keys plus the batch's ids. Each batch id holds the last row the batch has for it, and every other row is untouched. |
| Store.MergeStep | main.py:30-43 | Merging the first row and then the rest of the batch is merging the whole batch. |
| Store.Save | main.py:26-44 | An empty batch changes nothing. A save commits exactly when every row builds, and then merges the batch as above. A failed save reports the first failing event's error. |
| Store.UpsertedUnique | main.py:30-44 | The table a merge produces is determined by the old table and the batch. |
| Store.MergeIdempotent | main.py:30-43 | Merging the same rows a second time changes nothing. |
| Store.SaveIdempotent | main.py:26-44 | Saving the same batch twice leaves the same table as saving it once. |
| Store.MergeKeepsKeyedById | main.py:31-32 | Merging keeps every row filed under its own id. |
| Store.SaveKeepsKeyedById | main.py:26-44 | Saving keeps every row filed under its own id; `Sync.Sync` carries this over the whole run. |
| Store.MergedRowComesFromTableOrBatch | main.py:30-43 | After a merge, every row is the row the table had under that key or a row of the batch. |
| Store.SavedRowComesFromTableOrBatch | main.py:26-44 | After a save, every row is the row the table had under that key or the row built from one of the batch's events. |
| Store.SaveCoversLastItem | main.py:30-44 | After a non-empty save, the batch's last event is in the table with its own timestamp. |
| Store.FirstByCreatedAt | main.py:53 | The oldest-first or newest-first query answers `None` exactly on an empty table. Otherwise it answers the key of a row of the table that no other row precedes in that order. |
| Sync.LastIsNewer | main.py:78 | Line 78 fails exactly when the page's last event has no parsable `created_at`. It answers whether that event is newer than the newest row. |
| Sync.IncrementalStep | main.py:69-83 | An empty page stops the loop. A non-empty page on an empty table raises `AttributeError`. A pass fails exactly when the first or the last event's `created_at` does not parse, or the page is to be saved and the save fails; a bad first timestamp or a failed save raises that error and leaves the table alone. A pass that does not fail saves the page iff its first event is newer than the newest row. It goes on iff its last event is newer than the newest row's `created_at` as read after the save, from the row with that key. Without a save the table is unchanged, and it never loses keys. |
| Sync.StepFailsAsPassError | main.py:69-78 | Whichever newest row the query answers, a pass on a non-empty page fails exactly with the exception `PassError` names. `PassError` is stated without the query: the page is saved exactly when no row is as new as its first event. |
| Sync.NoErrorOnceSaved | main.py:69-78 | A page that a pass saved without failing does not make a later pass on the saved table fail. |
| Sync.GoingOnSaved | main.py:75-80 | On a page whose first event is no older than its last, a pass that goes on has saved the page, and the table then holds the last event's time. |
| Sync.SavedPageStops | main.py:75-83 | A pass on a table that already holds the saved page, and so the page's last time, stops. |
| Sync.NewestIsUnique | main.py:69 | Any two keys the newest-row query may answer hold rows with the same `created_at`. |
| Sync.TiedNewestRowsDecideAlike | main.py:69-76 | Whichever of several rows tied for newest the query answers, the pass makes the same decision to save. |
| Sync.TiedNewestRowsSaveAlike | main.py:69-83 | Whichever tied row the query answers, the pass leaves the same table. A pass that does not save is the same pass. |
| Sync.Pass | main.py:69-83 | A pass asks for the newest row, and the key it gets is one the query may answer. The pass is then `IncrementalStep` for that key. |
| Sync.PassFacts | main.py:69-83 | For any key the newest-row query may answer, a pass behaves as follows. An empty page stops it with nothing saved. It fails exactly as `PassError` says. It only adds keys, and a save stores the page. A pass that stops on a non-empty page leaves a row no older than the page's last event. On a page whose first event is no older than its last, a pass that goes on has saved the page. A pass on a table that already holds the saved page stops. |
| Sync.StepSavesAsSavesPage | main.py:69-76 | Whichever newest row the query answers, a pass saves the page exactly when `SavesPage` holds: the page is not empty, the table is not empty, and the first event is newer than every row and builds. |
| Sync.TraceSaves | main.py:68-83 | Passes over one page save it at most once. The table after them is the table before, or the page saved on it. A save happens exactly when `SavesPage` holds of the starting table. |
| Sync.TraceErrors | main.py:68-83 | In a run of passes where every pass but the last went on, only the first pass can fail. The run fails exactly when `PassError` names an exception, and with that exception. An empty page makes one pass that changes nothing. |
| Sync.NoPassFails | main.py:69-78 | On a page where `PassError` finds nothing wrong, no pass of the run fails, whichever table earlier passes left. |
| Sync.TraceFinishes | main.py:78-83 | A run that broke out at line 83 left a row no older than the page's last event. |
| Sync.TraceBound | main.py:68-83 | On a page whose first event is no older than its last, a run makes at most two passes, and a second pass does not go on. |
| Sync.SecondPassStops | main.py:75-83 | On such a page, the pass after one that went on stops. |
| Sync.TraceOnCoveredPage | main.py:68-83 | A newest-first page whose last time the table already holds takes one pass. |
| Sync.SpinningPassRepeats | main.py:69-80 | On a page that `Spins` (the first event is no newer than some row, the last is newer than every row), a pass saves nothing, goes on, and leaves the table as it was. |
| Sync.TraceSpins | main.py:68-83 | On a page that `Spins`, every pass leaves the table as it was and goes on, so the loop never ends by itself. |
| Sync.UnsavedPageKeepsTable | main.py:68-83 | When `SavesPage` rules out a save, every pass runs on the starting table. |
| Sync.NextPass | main.py:69-83 | The next pass of the loop runs on the table the earlier passes left, and extends the run of passes by one pass of `IncrementalStep`. |
| Sync.Loop | main.py:68-83 | The loop makes a run of passes. Each pass is `IncrementalStep` on the table the previous one left, and every pass but the last went on. Its report matches the passes: one request of page 1 per pass, one save per saving pass, and the table, status and `page` the last pass left. |
| Sync.RunSaves | main.py:68-83 | A run only adds keys. It leaves the table unchanged or stores page 1 once. It saves exactly when `SavesPage` holds and there was fuel. On a page that `Spins`, it saves nothing and spends all its fuel. |
| Sync.RunStops | main.py:68-83 | An empty page 1 ends a run after one request. Only the first pass can crash, exactly as `PassError` says. A finished run left a row no older than the last event. A page whose first event is no older than its last ends within two passes. |
| Sync.PassOnNewestFirstPage | main.py:75-83 | On a page whose every event lies between the first and the last, a pass on a table that holds the page's last time stops, even when the save rewrote the newest row. |
| Sync.NoNewerThanCovered | main.py:78 | The newest row is no older than any time some row reaches. |
| Sync.Incremental | main.py:68-83 | The run's passes form a run where each pass is `IncrementalStep` on the table the previous pass left, and every pass but the last went on. The status, table and number of saves are the ones those passes decide. Every request and every save is of page 1. When the loop ends, `page` equals the number of passes; when the fuel runs out, it is one more. The page is saved exactly when there was fuel and `SavesPage` holds. Without a save the table is unchanged; otherwise it is page 1 saved once. An empty page 1 ends the run after one request with nothing saved. The run crashes exactly when the first pass fails, with `PassError`'s exception, after one request. A finished loop met an empty page, or a page whose last event is no newer than some row. When page 1's first event is no older than its last, the loop ends after at most two passes; when every event lies between them and the table already holds the last time, after one. On a page that `Spins`, the run saves nothing and spends all its fuel. |
| Sync.RepeatIsConstant | main.py:70 | `Repeat(p, n)` is `n` copies of page `p`. |
| Sync.PagesAreConsecutive | main.py:56-65 | `Pages(n)` is 1, 2, …, n. |
| Sync.NonEmptyUpToMeans | main.py:62-63 | `NonEmptyUpTo(fetch, n)` holds exactly when pages 1 to n all have events. |
| Sync.Bootstrap | main.py:56-66 | The loop requests pages 1, 2, 3, … in order and saves each non-empty page exactly once. On finishing, the last request is the first empty page. A crash is the failing save of the last page requested. The table equals pages 1 to k saved in order. |
| Sync.Sync | main.py:53-83 | An empty table fails with `AttributeError` before any request. A non-empty one runs the incremental loop and returns its passes, each `IncrementalStep` on the table the previous one left; the status, table and saves are the ones the passes decide. Only page 1 is requested. The table is unchanged or is page 1 saved once, and it is saved exactly when there was fuel and `SavesPage` holds. An empty page 1 finishes the run at once. A crash is the first pass's `PassError`, and such an error always crashes the run. A finished run met an empty page or one no newer than some row. A page 1 whose first event is no older than its last ends the loop within two passes. A page that `Spins` makes the run spend all its fuel without a save. A table whose rows are filed under their own ids stays so. |

## Left out

- The HTTP client (my_github/github_api.py) is not modelled. The feed is a parameter. Request headers, `per_page`, transport errors and a non-list JSON answer are not modelled.
- The database session (my_github/db_session.py), environment configuration, logging and the module-level singletons are not modelled. The table is a map held by value.
- Store.ColumnCreatedAt: it refuses a JSON `null` `created_at` with `DataError`. The column is declared `nullable=True` (my_github/models.py:21), so the source would store such an event with a NULL `created_at`. The model leaves this out because such a row has no place in the `created_at` order. The newest-row query and line 78's `<` would then have to compare a NULL. GitHub always sends a timestamp.
- Column conversion: only the primary key and `created_at` are converted. Every other column stores the decoded value as given. `Store.ColumnId` accepts any integer, where the `BigInteger` column (my_github/models.py:9) refuses ids outside the signed 64-bit range; GitHub's event ids lie well inside it. Column lengths, nullability and the database's own parsing of other spellings are not modelled.
- The point at which the database reports a conversion error is not modelled. A failing batch reports the error of its first failing event, and nothing of the batch is committed.
- Timestamps.Parse: it is stricter than `strptime`. `strptime` also accepts single-digit month, day, hour, minute and second fields, a space-padded day such as ` 5`, non-ASCII decimal digits, and lower-case `t` and `z`. The model accepts only the fixed-width ASCII form GitHub sends.
- EventParser.Lower: it maps only `A`–`Z`. Python's `str.lower` also maps other characters. Two of them lower to text starting with an ASCII letter. The Kelvin sign U+212A lowers to `k`, and no handler name contains `k`. `İ` (U+0130) lowers to two characters, `i` followed by U+0307, and no handler name contains U+0307. So neither can select a handler.
- EventParser.Dispatch: a non-string `type` selects no handler. Its `str()` cannot spell a handler name.
- Sync.Incremental: page 1 answers the same list on every request of a run, because the feed is a function of the page number. A transient empty answer, or events that arrive between two passes, are not modelled, and the two-pass bound relies on this.
- EventParser.PyEquals: it states only how enum members compare. Decoded values compare structurally; Python's `1 == True` across `int` and `bool` is not modelled. The parser only compares with an enum member, where this makes no difference.
- Sync.Incremental, Sync.Bootstrap: each loop runs at most `fuel` passes and then reports `OutOfFuel`. The Python loops are unbounded.
- Sync.Bootstrap: it takes the save operation as a parameter (`Saver`). It holds for any save; `save_github_events` is `Store.Save`. `main` never reaches this loop.
- Sync.Sync: the `if not oldest_event` bootstrap branch is absent. The exception on the line before it always ends `main` on an empty table.
- `save_github_events(None)`: the feed always answers a list, so the `None` batch does not arise.
