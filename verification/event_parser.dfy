/**
 * `EventParser` of my_github/event_parser.py: one raw GitHub event, a nested
 * JSON mapping, becomes a flat record of twelve common keys plus the keys of
 * the `transform_<type>` extension whose name matches the event type.
 */
module EventParser {
  import opened Wrappers
  import opened Json
  import Timestamps

  /** A value of the parser's `event_dict`: decoded JSON, or the datetime `strptime` returned. */
  datatype Field = JsonField(value: Value) | DateTimeField(time: Timestamps.Timestamp)

  /** The keys of `event_dict`; `KeyName` gives the string Python uses. */
  datatype Key =
    | Id | EventType | ActorId | ActorLogin | RepoId | RepoName | Payload | Public
    | OrgId | OrgLogin | Action | CreatedAt
    | CommitSha | PrNumber | NodeId | Additions | Deletions | ChangedFiles

  function KeyName(k: Key): string {
    match k
    case Id => "id"
    case EventType => "event_type"
    case ActorId => "actor_id"
    case ActorLogin => "actor_login"
    case RepoId => "repo_id"
    case RepoName => "repo_name"
    case Payload => "payload"
    case Public => "public"
    case OrgId => "org_id"
    case OrgLogin => "org_login"
    case Action => "action"
    case CreatedAt => "created_at"
    case CommitSha => "commit_sha"
    case PrNumber => "pr_number"
    case NodeId => "node_id"
    case Additions => "additions"
    case Deletions => "deletions"
    case ChangedFiles => "changed_files"
  }

  type Record = map<Key, Field>

  /** The members of `ACTION_ENUM`. */
  datatype ActionMember = Opened | Closed | Started | Published | Created | Added

  /** The string each `ACTION_ENUM` member wraps (its `.value`). */
  function ActionText(m: ActionMember): string {
    match m
    case Opened => "opened"
    case Closed => "closed"
    case Started => "started"
    case Published => "published"
    case Created => "created"
    case Added => "added"
  }

  /** The Python objects the parser compares: decoded JSON, a datetime, or an `ACTION_ENUM` member. */
  datatype PyObject = Decoded(v: Value) | DateTime(t: Timestamps.Timestamp) | Member(m: ActionMember)

  function AsPyObject(f: Field): PyObject {
    match f
    case JsonField(v) => Decoded(v)
    case DateTimeField(t) => DateTime(t)
  }

  /**
   * Python `==` on these objects. A plain `enum.Enum` member is equal only to
   * itself: `'closed' == ACTION_ENUM.CLOSED` is `False`.
   */
  function PyEquals(a: PyObject, b: PyObject): (r: bool)
    ensures r ==> (a.Member? <==> b.Member?)
    ensures a.Member? && b.Member? ==> (r <==> a.m == b.m)
  {
    match (a, b)
    case (Decoded(x), Decoded(y)) => x == y
    case (DateTime(x), DateTime(y)) => x == y
    case (Member(x), Member(y)) => x == y
    case _ => false
  }

  /** The twelve keys `transform` always writes. */
  const CommonKeys: set<Key> :=
    {Id, EventType, ActorId, ActorLogin, RepoId, RepoName, Payload, Public, OrgId, OrgLogin, Action, CreatedAt}

  /** `record[key]` holds, verbatim, the member `k` of the dict `v`. */
  predicate Copies(record: Record, key: Key, v: Value, k: string) {
    HasKey(v, k) && key in record && record[key] == JsonField(v.fields[k])
  }

  /** The dict `v[k0]`, when there is one. */
  predicate HasDict(v: Value, k0: string) {
    HasKey(v, k0) && v.fields[k0].Object?
  }

  /** `v[k0][k1]` exists. */
  predicate Has2(v: Value, k0: string, k1: string) {
    HasKey(v, k0) && HasKey(v.fields[k0], k1)
  }

  /** The five `transform_*` methods of the parser. */
  datatype Handler =
    | TransformPushEvent
    | TransformPullRequestEvent
    | TransformIssuesEvent
    | TransformIssueCommentEvent
    | TransformCommitCommentEvent

  /** The method name is `transform_` followed by the lower-cased event type it handles. */
  function HandlerName(h: Handler): string {
    "transform_" + HandledType(h)
  }

  function HandledType(h: Handler): string {
    match h
    case TransformPushEvent => "pushevent"
    case TransformPullRequestEvent => "pullrequestevent"
    case TransformIssuesEvent => "issuesevent"
    case TransformIssueCommentEvent => "issuecommentevent"
    case TransformCommitCommentEvent => "commitcommentevent"
  }

  /** The keys each handler adds to the common ones. */
  function AddedKeys(h: Option<Handler>): set<Key> {
    match h
    case None => {}
    case Some(TransformPushEvent) => {CommitSha}
    case Some(TransformPullRequestEvent) => {PrNumber, NodeId, Additions, Deletions, ChangedFiles}
    case Some(_) => {NodeId}
  }

  /** `str.lower()` on the ASCII letters. */
  function LowerChar(c: char): char {
    if 'A' <= c <= 'Z' then (c as int + 32) as char else c
  }

  function Lower(s: string): (r: string)
    ensures |r| == |s|
    ensures forall i :: 0 <= i < |s| ==> r[i] == LowerChar(s[i])
  {
    if s == [] then [] else [LowerChar(s[0])] + Lower(s[1..])
  }

  lemma {:induction false} LowerAppend(a: string, b: string)
    ensures Lower(a + b) == Lower(a) + Lower(b)
  {
    var ab, la, lb := a + b, Lower(a), Lower(b);
    var lab := Lower(ab);
    forall i | 0 <= i < |ab|
      ensures lab[i] == (la + lb)[i]
    {
      if i < |a| {
        assert ab[i] == a[i];
      } else {
        assert ab[i] == b[i - |a|];
      }
    }
    assert lab == la + lb;
  }

  lemma LowerKeepsLowerCase(s: string)
    requires forall i :: 0 <= i < |s| ==> !('A' <= s[i] <= 'Z')
    ensures Lower(s) == s
  {
  }

  /**
   * `hasattr(self, f'transform_{ type }'.lower())` followed by `getattr`:
   * the handler for the lower-cased type, if the parser has one. Only a
   * string type can match: `str()` of any other JSON value starts with a
   * digit, a sign, a bracket or a brace, or spells `None`, `True` or `False`.
   */
  function Dispatch(eventType: Value): (r: Option<Handler>)
    ensures r.Some? ==> eventType.Str? && HandledType(r.value) == Lower(eventType.s)
    ensures r.None? && eventType.Str? ==> forall h: Handler :: HandledType(h) != Lower(eventType.s)
  {
    match eventType
    case Str(s) =>
      var t := Lower(s);
      if t == "pushevent" then Some(TransformPushEvent)
      else if t == "pullrequestevent" then Some(TransformPullRequestEvent)
      else if t == "issuesevent" then Some(TransformIssuesEvent)
      else if t == "issuecommentevent" then Some(TransformIssueCommentEvent)
      else if t == "commitcommentevent" then Some(TransformCommitCommentEvent)
      else None
    case _ => None
  }

  lemma PrefixCancels(p: string, a: string, b: string)
    ensures p + a == p + b <==> a == b
  {
    if p + a == p + b {
      assert a == (p + a)[|p|..];
    }
  }

  /**
   * Dispatch is lookup by method name: it finds exactly the handler whose
   * name is `f'transform_{ type }'.lower()`, and none when no method has it.
   */
  lemma DispatchByName(eventType: Value)
    ensures Dispatch(eventType).Some? ==>
      eventType.Str? && HandlerName(Dispatch(eventType).value) == Lower("transform_" + eventType.s)
    ensures Dispatch(eventType).None? && eventType.Str? ==>
      forall h: Handler :: HandlerName(h) != Lower("transform_" + eventType.s)
  {
    if eventType.Str? {
      var s := eventType.s;
      LowerMethodName(s);
      var name := Lower("transform_" + s);
      if Dispatch(eventType).None? {
        forall h: Handler
          ensures HandlerName(h) != name
        {
          PrefixCancels("transform_", HandledType(h), Lower(s));
        }
      }
    }
  }

  /** Lower-casing the method name leaves its lower-case prefix alone. */
  lemma LowerMethodName(s: string)
    ensures Lower("transform_" + s) == "transform_" + Lower(s)
  {
    var prefix := "transform_";
    LowerKeepsLowerCase(prefix);
    assert Lower(prefix) == prefix;
    LowerAppend(prefix, s);
  }

  /** Upper- and lower-case spellings of a type select the same handler. */
  lemma DispatchIgnoresCase(s: string, t: string)
    requires Lower(s) == Lower(t)
    ensures Dispatch(Str(s)) == Dispatch(Str(t))
  {
  }

  /** `(v[k]['id'], v[k][second])`, the id-and-name pairs of the raw event. */
  function Pair(v: Value, k: string, second: string): (r: Result<(Value, Value), Error>)
    ensures r.Ok? <==> Has2(v, k, "id") && Has2(v, k, second)
    ensures r.Ok? ==> r.value == (v.fields[k].fields["id"], v.fields[k].fields[second])
  {
    var first :- Get(v, k);
    var id :- Get(first, "id");
    var name :- Get(first, second);
    Ok((id, name))
  }

  /** `e['org']['id'] if 'org' in e else None`, and the same for `login`. */
  function OrgPair(e: Value): (r: Result<(Value, Value), Error>)
    ensures r.Ok? <==> (HasKey(e, "org") ==> Has2(e, "org", "id") && Has2(e, "org", "login"))
    ensures r.Ok? && HasKey(e, "org") ==> r.value == (e.fields["org"].fields["id"], e.fields["org"].fields["login"])
    ensures r.Ok? && !HasKey(e, "org") ==> r.value == (Null, Null)
  {
    if HasKey(e, "org") then Pair(e, "org", "login") else Ok((Null, Null))
  }

  /** The twelve values `transform` always writes, before they become a dict. */
  datatype Common = Common(
    id: Value, eventType: Value, actorId: Value, actorLogin: Value, repoId: Value, repoName: Value,
    payload: Value, public: Value, orgId: Value, orgLogin: Value, action: Value,
    createdAt: Timestamps.Timestamp)

  /**
   * `transform`'s dict literal, evaluated key by key in source order, so the
   * first missing key is the one whose exception surfaces.
   */
  function CommonFields(e: Value): (r: Result<Common, Error>)
    ensures r.Ok? <==>
      && HasKey(e, "id") && HasKey(e, "type")
      && Has2(e, "actor", "id") && Has2(e, "actor", "login")
      && Has2(e, "repo", "id") && Has2(e, "repo", "name")
      && HasDict(e, "payload") && HasKey(e, "public")
      && (HasKey(e, "org") ==> Has2(e, "org", "id") && Has2(e, "org", "login"))
      && HasKey(e, "created_at") && Timestamps.FromGithubTime(e.fields["created_at"]).Ok?
    ensures r.Ok? ==>
      && r.value.id == e.fields["id"] && r.value.eventType == e.fields["type"]
      && r.value.actorId == e.fields["actor"].fields["id"]
      && r.value.actorLogin == e.fields["actor"].fields["login"]
      && r.value.repoId == e.fields["repo"].fields["id"]
      && r.value.repoName == e.fields["repo"].fields["name"]
      && r.value.payload == e.fields["payload"] && r.value.public == e.fields["public"]
    ensures r.Ok? && HasKey(e, "org") ==>
      r.value.orgId == e.fields["org"].fields["id"] && r.value.orgLogin == e.fields["org"].fields["login"]
    ensures r.Ok? && !HasKey(e, "org") ==> r.value.orgId == Null && r.value.orgLogin == Null
    ensures r.Ok? && HasKey(e.fields["payload"], "action") ==>
      r.value.action == e.fields["payload"].fields["action"]
    ensures r.Ok? && !HasKey(e.fields["payload"], "action") ==> r.value.action == Null
    ensures r.Ok? ==> Timestamps.FromGithubTime(e.fields["created_at"]) == Ok(r.value.createdAt)
  {
    var id :- Get(e, "id");
    var eventType :- Get(e, "type");
    var actor :- Pair(e, "actor", "login");
    var repo :- Pair(e, "repo", "name");
    var payload :- Get(e, "payload");
    var public :- Get(e, "public");
    var org :- OrgPair(e);
    var action :- GetOptional(payload, "action");
    var createdText :- Get(e, "created_at");
    var createdAt :- Timestamps.FromGithubTime(createdText);
    Ok(Common(id, eventType, actor.0, actor.1, repo.0, repo.1, payload, public, org.0, org.1, action, createdAt))
  }

  /** The dict the common values make. */
  function CommonRecord(c: Common): (r: Record)
    ensures r.Keys == CommonKeys
  {
    map[
      Id := JsonField(c.id), EventType := JsonField(c.eventType),
      ActorId := JsonField(c.actorId), ActorLogin := JsonField(c.actorLogin),
      RepoId := JsonField(c.repoId), RepoName := JsonField(c.repoName),
      Payload := JsonField(c.payload), Public := JsonField(c.public),
      OrgId := JsonField(c.orgId), OrgLogin := JsonField(c.orgLogin),
      Action := JsonField(c.action), CreatedAt := DateTimeField(c.createdAt)]
  }

  /** The key Python spells `name`, if the record type has one. */
  function KeyNamed(name: string): (k: Option<Key>)
    ensures k.Some? ==> KeyName(k.value) == name
    ensures k.None? ==> forall x: Key :: KeyName(x) != name
  {
    if name == "id" then Some(Id)
    else if name == "event_type" then Some(EventType)
    else if name == "actor_id" then Some(ActorId)
    else if name == "actor_login" then Some(ActorLogin)
    else if name == "repo_id" then Some(RepoId)
    else if name == "repo_name" then Some(RepoName)
    else if name == "payload" then Some(Payload)
    else if name == "public" then Some(Public)
    else if name == "org_id" then Some(OrgId)
    else if name == "org_login" then Some(OrgLogin)
    else if name == "action" then Some(Action)
    else if name == "created_at" then Some(CreatedAt)
    else if name == "commit_sha" then Some(CommitSha)
    else if name == "pr_number" then Some(PrNumber)
    else if name == "node_id" then Some(NodeId)
    else if name == "additions" then Some(Additions)
    else if name == "deletions" then Some(Deletions)
    else if name == "changed_files" then Some(ChangedFiles)
    else None
  }

  /** `parser.<name>` for a name that is none of the parser's own attributes: `__getattr__`. */
  function Attribute(record: Record, name: string): (r: Result<Field, Error>)
    ensures r.Ok? <==> exists k :: k in record && KeyName(k) == name
    ensures r.Ok? ==> exists k :: k in record && KeyName(k) == name && r.value == record[k]
    ensures r.Err? ==> r.error == AttributeError(name)
  {
    match KeyNamed(name)
    case Some(k) =>
      if k in record then Ok(record[k])
      else
        assert forall x: Key :: KeyName(x) == name ==> x == k by {
          forall x: Key | KeyName(x) == name
            ensures x == k
          {
            KeyNamedInvertsKeyName(x);
          }
        }
        Err(AttributeError(name))
    case None => Err(AttributeError(name))
  }

  /** Every key of the record type is found by its own Python name. */
  lemma KeyNamedInvertsKeyName(k: Key)
    ensures KeyNamed(KeyName(k)) == Some(k)
  {
  }

  /**
   * `transform_pushevent`: writes `commit_sha` straight into `event_dict`
   * and returns `{}`, which the update then adds nothing from.
   */
  function PushEventFields(payload: Value): (r: Result<Record, Error>)
    ensures r.Ok? <==> HasKey(payload, "head")
    ensures r.Ok? ==> r.value.Keys == {CommitSha} && Copies(r.value, CommitSha, payload, "head")
  {
    var head :- Get(payload, "head");
    Ok(map[CommitSha := JsonField(head)])
  }

  /**
   * `transform_pullrequestevent`. Its `self.action == ACTION_ENUM.CLOSED` test
   * compares decoded JSON with an enum member, so `merge_commit_sha` is never read.
   */
  function PullRequestEventFields(payload: Value, record: Record): (r: Result<Record, Error>)
    requires Action in record && record[Action].JsonField?
    ensures r.Ok? <==>
      && HasKey(payload, "number")
      && Has2(payload, "pull_request", "node_id") && Has2(payload, "pull_request", "additions")
      && Has2(payload, "pull_request", "deletions") && Has2(payload, "pull_request", "changed_files")
    ensures r.Ok? ==>
      && r.value.Keys == {PrNumber, NodeId, Additions, Deletions, ChangedFiles}
      && Copies(r.value, PrNumber, payload, "number")
      && Copies(r.value, NodeId, payload.fields["pull_request"], "node_id")
      && Copies(r.value, Additions, payload.fields["pull_request"], "additions")
      && Copies(r.value, Deletions, payload.fields["pull_request"], "deletions")
      && Copies(r.value, ChangedFiles, payload.fields["pull_request"], "changed_files")
  {
    var prInfo :- Get(payload, "pull_request");
    var number :- Get(payload, "number");
    var nodeId :- Get(prInfo, "node_id");
    var additions :- Get(prInfo, "additions");
    var deletions :- Get(prInfo, "deletions");
    var changedFiles :- Get(prInfo, "changed_files");
    var added := map[PrNumber := JsonField(number), NodeId := JsonField(nodeId),
                     Additions := JsonField(additions), Deletions := JsonField(deletions),
                     ChangedFiles := JsonField(changedFiles)];
    match Attribute(record, "action")
    case Err(err) => Err(err)
    case Ok(action) =>
      if PyEquals(AsPyObject(action), Member(Closed)) then
        match Get(prInfo, "merge_commit_sha")
        case Err(err) => Err(err)
        case Ok(mergeSha) => Ok(added[CommitSha := JsonField(mergeSha)])
      else
        Ok(added)
  }

  /**
   * `transform_issuesevent` (holder `issue`), `transform_issuecommentevent`
   * and `transform_commitcommentevent` (holder `comment`).
   */
  function NodeIdFields(payload: Value, holder: string): (r: Result<Record, Error>)
    ensures r.Ok? <==> Has2(payload, holder, "node_id")
    ensures r.Ok? ==> r.value.Keys == {NodeId} && Copies(r.value, NodeId, payload.fields[holder], "node_id")
  {
    var holderValue :- Get(payload, holder);
    var nodeId :- Get(holderValue, "node_id");
    Ok(map[NodeId := JsonField(nodeId)])
  }

  /** The object whose `node_id` an issue or comment handler copies. */
  function NodeIdHolder(h: Handler): string {
    if h == TransformIssuesEvent then "issue" else "comment"
  }

  /** What a handler needs in the payload for it to succeed. */
  predicate HandlerNeeds(h: Handler, payload: Value) {
    match h
    case TransformPushEvent => HasKey(payload, "head")
    case TransformPullRequestEvent =>
      && HasKey(payload, "number")
      && Has2(payload, "pull_request", "node_id") && Has2(payload, "pull_request", "additions")
      && Has2(payload, "pull_request", "deletions") && Has2(payload, "pull_request", "changed_files")
    case TransformIssuesEvent => Has2(payload, "issue", "node_id")
    case _ => Has2(payload, "comment", "node_id")
  }

  /** Runs one handler on the event's payload, given the common record it reads attributes of. */
  function Extend(h: Handler, payload: Value, record: Record): (r: Result<Record, Error>)
    requires Action in record && record[Action].JsonField?
    ensures r.Ok? <==> HandlerNeeds(h, payload)
    ensures r.Ok? ==> r.value.Keys == AddedKeys(Some(h))
  {
    match h
    case TransformPushEvent => PushEventFields(payload)
    case TransformPullRequestEvent => PullRequestEventFields(payload, record)
    case _ => NodeIdFields(payload, NodeIdHolder(h))
  }

  /** The handler the event's type selects; `None` when the event is not a dict with a type. */
  function HandlerOf(e: Value): Option<Handler> {
    if HasKey(e, "type") then Dispatch(e.fields["type"]) else None
  }

  /**
   * The raw events the parser accepts: every key it subscripts is present
   * on a dict, `payload` is a dict (it has `.get`), `created_at` is a string
   * in the GitHub format, and the handler for the type finds its keys.
   */
  predicate WellFormed(e: Value) {
    && HasKey(e, "id") && HasKey(e, "type")
    && Has2(e, "actor", "id") && Has2(e, "actor", "login")
    && Has2(e, "repo", "id") && Has2(e, "repo", "name")
    && HasDict(e, "payload") && HasKey(e, "public")
    && (HasKey(e, "org") ==> Has2(e, "org", "id") && Has2(e, "org", "login"))
    && HasKey(e, "created_at") && Timestamps.FromGithubTime(e.fields["created_at"]).Ok?
    && (HandlerOf(e).Some? ==> HandlerNeeds(HandlerOf(e).value, e.fields["payload"]))
  }

  /**
   * Lines 37-40 of `transform`: look the handler up by name and `update` the
   * common dict with what it returns. The handler's keys are disjoint from
   * the common ones, so the update only adds entries.
   */
  function Update(common: Record, h: Option<Handler>, payload: Value): (r: Result<Record, Error>)
    requires common.Keys == CommonKeys && common[Action].JsonField?
    ensures r.Ok? <==> (h.Some? ==> HandlerNeeds(h.value, payload))
    ensures r.Ok? ==> r.value.Keys == CommonKeys + AddedKeys(h)
    ensures r.Ok? && h == Some(TransformPushEvent) ==> Copies(r.value, CommitSha, payload, "head")
    ensures r.Ok? && h == Some(TransformPullRequestEvent) ==>
      var pr := payload.fields["pull_request"];
      && Copies(r.value, PrNumber, payload, "number")
      && Copies(r.value, NodeId, pr, "node_id") && Copies(r.value, Additions, pr, "additions")
      && Copies(r.value, Deletions, pr, "deletions") && Copies(r.value, ChangedFiles, pr, "changed_files")
    ensures r.Ok? && h.Some? && h.value !in {TransformPushEvent, TransformPullRequestEvent} ==>
      Copies(r.value, NodeId, payload.fields[NodeIdHolder(h.value)], "node_id")
  {
    match h
    case None => Ok(common)
    case Some(handler) =>
      var added :- Extend(handler, payload, common);
      Ok(common + added)
  }

  lemma AddedKeysAreNew(h: Option<Handler>)
    ensures CommonKeys !! AddedKeys(h)
  {
  }

  lemma MapUnionKeepsLeft<K, V>(a: map<K, V>, b: map<K, V>)
    requires a.Keys !! b.Keys
    ensures forall k :: k in a ==> (a + b)[k] == a[k]
  {
  }

  /** The update only adds entries: each common key keeps its value. */
  lemma UpdateKeepsCommon(common: Record, h: Option<Handler>, payload: Value)
    requires common.Keys == CommonKeys && common[Action].JsonField?
    requires Update(common, h, payload).Ok?
    ensures forall k :: k in common ==> Update(common, h, payload).value[k] == common[k]
  {
    if h.Some? {
      var added := Extend(h.value, payload, common).value;
      assert Update(common, h, payload).value == common + added;
      assert added.Keys == AddedKeys(h);
      AddedKeysAreNew(h);
      assert common.Keys !! added.Keys;
      MapUnionKeepsLeft(common, added);
    }
  }

  /**
   * `EventParser(raw_event).event_dict`, or the exception construction raises.
   * The common keys come first; the handler, if any, only adds keys.
   */
  function Transform(e: Value): (r: Result<Record, Error>)
    ensures r.Ok? <==> WellFormed(e)
    ensures r.Ok? ==> r.value.Keys == CommonKeys + AddedKeys(HandlerOf(e))
    ensures r.Ok? ==>
      && CommonFields(e).Ok?
      && forall k :: k in CommonKeys ==> r.value[k] == CommonRecord(CommonFields(e).value)[k]
    ensures r.Ok? && HandlerOf(e) == Some(TransformPushEvent) ==>
      Copies(r.value, CommitSha, e.fields["payload"], "head")
    ensures r.Ok? && HandlerOf(e) == Some(TransformPullRequestEvent) ==>
      var pr := e.fields["payload"].fields["pull_request"];
      && Copies(r.value, PrNumber, e.fields["payload"], "number")
      && Copies(r.value, NodeId, pr, "node_id") && Copies(r.value, Additions, pr, "additions")
      && Copies(r.value, Deletions, pr, "deletions") && Copies(r.value, ChangedFiles, pr, "changed_files")
    ensures r.Ok? && HandlerOf(e).Some? && HandlerOf(e).value !in {TransformPushEvent, TransformPullRequestEvent} ==>
      Copies(r.value, NodeId, e.fields["payload"].fields[NodeIdHolder(HandlerOf(e).value)], "node_id")
  {
    var fields :- CommonFields(e);
    var r := Update(CommonRecord(fields), Dispatch(e.fields["type"]), e.fields["payload"]);
    if r.Ok? then
      UpdateKeepsCommon(CommonRecord(fields), Dispatch(e.fields["type"]), e.fields["payload"]);
      r
    else r
  }

  /**
   * An event of a type no handler matches becomes exactly the common
   * record, and fails exactly when the common fields do.
   */
  lemma UnknownTypeKeepsCommonRecord(e: Value)
    requires HandlerOf(e).None?
    ensures Transform(e).Ok? <==> CommonFields(e).Ok?
    ensures Transform(e).Ok? ==> Transform(e).value == CommonRecord(CommonFields(e).value)
  {
  }

  /** A pull-request event never gets `commit_sha`, whatever its action. */
  lemma PullRequestHasNoCommitSha(e: Value)
    requires Transform(e).Ok? && HandlerOf(e) == Some(TransformPullRequestEvent)
    ensures CommitSha !in Transform(e).value
  {
    PullRequestKeysLackCommitSha(Transform(e).value);
  }

  /** `commit_sha` is neither a common key nor one the pull-request handler adds. */
  lemma PullRequestKeysLackCommitSha(record: Record)
    requires record.Keys == CommonKeys + AddedKeys(Some(TransformPullRequestEvent))
    ensures CommitSha !in record
  {
    assert CommitSha !in CommonKeys;
  }

  /** Decoded JSON is never equal to an `ACTION_ENUM` member, `'closed'` included. */
  lemma DecodedNeverEqualsMember(v: Value, m: ActionMember)
    ensures !PyEquals(Decoded(v), Member(m))
    ensures !PyEquals(Decoded(Str(ActionText(m))), Member(m))
  {
  }
}
