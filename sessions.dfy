/**
 * The session service behind `/api/sessions`: a table of session records
 * keyed by id, the request validators, and one method per route handler.
 * Every point lookup is scoped to the caller, and a record owned by someone
 * else is reported exactly like a missing one.
 */
module SessionService {
  import opened Wrappers
  import opened Text
  import opened Tags

  type SessionId = string
  type UserId = string

  const Draft: string := "draft"
  const Published: string := "published"

  /** A stored session. `updatedAt` and `createdAt` are readings of the store's logical clock. */
  datatype Session = Session(
    id: SessionId,
    owner: UserId,
    title: string,
    content: string,
    tags: seq<string>,
    jsonFileUrl: string,
    status: string,
    createdAt: nat,
    updatedAt: nat)

  /** The request fields a validator can reject, in the order the validator chains run. */
  datatype Field = TitleField | TagsField | JsonFileUrlField

  /** A handler's answer: the record (200), 404, or 400 with the rejected fields. */
  datatype Result<T> = Ok(value: T) | NotFound | Invalid(errors: seq<Field>)

  /** Body of `POST /`; a missing title arrives as "" after the trim sanitizer. */
  datatype CreateBody = CreateBody(title: string, content: Option<string>, status: Option<string>)

  /** Body of `PATCH /:id`; `None` is a field that was not sent. */
  datatype PatchBody = PatchBody(title: Option<string>, content: Option<string>, status: Option<string>)

  /** Body of `save-draft` and `publish`. */
  datatype SaveBody = SaveBody(title: string, tags: TagsInput, jsonFileUrl: Option<string>, sessionId: Option<SessionId>)

  /** `x || ''` for an optional string: a missing or empty value becomes "". */
  function OrEmpty(o: Option<string>): (r: string)
    ensures o.Some? && o.value != "" ==> r == o.value
    ensures (o.None? || o.value == "") ==> r == ""
  {
    if o.Some? then o.value else ""
  }

  /** `if (sessionId)`: only a present, non-empty id selects the update branch. */
  predicate Truthy(id: Option<SessionId>) {
    id.Some? && id.value != ""
  }

  /** The save-draft URL rule: a present, non-blank value must parse as a URL. */
  predicate DraftUrlRejected(url: Option<string>, parsesAsUrl: string -> bool) {
    url.Some? && !Blank(url.value) && !parsesAsUrl(url.value)
  }

  /** The publish URL rule: the value is required and must satisfy `isURL`. */
  predicate PublishUrlRejected(url: Option<string>, isUrl: string -> bool) {
    url.None? || !isUrl(url.value)
  }

  /** U+FE0E and U+FE0F, the variation selectors validator.js's `isLength` does not count. */
  predicate IsVariationSelector(c: char) {
    c == '\U{FE0E}' || c == '\U{FE0F}'
  }

  /**
   * The length `isLength` measures: every character but the variation
   * selectors. A character outside the Basic Multilingual Plane is one `char`
   * here, as its surrogate pair counts once there.
   */
  function MeasuredLength(s: string): (n: nat)
    ensures n <= |s|
  {
    if s == [] then 0 else (if IsVariationSelector(s[0]) then 0 else 1) + MeasuredLength(s[1..])
  }

  /** The measured length is positive exactly when some character is not a variation selector. */
  lemma {:induction false} MeasuredPositive(s: string)
    ensures MeasuredLength(s) > 0 <==> exists i :: 0 <= i < |s| && !IsVariationSelector(s[i])
  {
    if s != [] {
      MeasuredPositive(s[1..]);
      if !IsVariationSelector(s[0]) {
        assert 0 < |s| && !IsVariationSelector(s[0]);
      } else if exists i :: 0 <= i < |s| && !IsVariationSelector(s[i]) {
        var i :| 0 <= i < |s| && !IsVariationSelector(s[i]);
        assert i > 0 && s[1..][i - 1] == s[i];
      }
    }
  }

  /** `.trim().isLength({ min: 1 })` fails: the trimmed title measures less than one. */
  predicate TitleRejected(title: string) {
    MeasuredLength(Trim(title)) < 1
  }

  /**
   * Validation of the title as the create, save-draft and publish chains do it:
   * accepted exactly when its trimmed text holds a character other than a
   * variation selector, so a blank title is always refused and an accepted
   * one is never empty.
   */
  function TitleErrors(title: string): (e: seq<Field>)
    ensures e == [] || e == [TitleField]
    ensures e == [] <==> exists i :: 0 <= i < |Trim(title)| && !IsVariationSelector(Trim(title)[i])
    ensures Blank(title) ==> e == [TitleField]
    ensures e == [] ==> Trim(title) != []
  {
    MeasuredPositive(Trim(title));
    if TitleRejected(title) then [TitleField] else []
  }

  /** A title of one variation selector is not blank to `trim()`, yet the title validator refuses it. */
  lemma SelectorOnlyTitle()
    ensures !Blank("\U{FE0F}") && TitleErrors("\U{FE0F}") == [TitleField]
  {
    assert IsTrimmed("\U{FE0F}");
    assert MeasuredLength("\U{FE0F}") == 0 by { assert "\U{FE0F}"[1..] == []; }
  }

  /** The tags check shared by save-draft and publish: absent, a string or an array. */
  function TagsErrors(tags: TagsInput): (e: seq<Field>)
    ensures e == [] || e == [TagsField]
    ensures e == [] <==> tags.Absent? || tags.Text? || tags.List?
  {
    if tags.Malformed? then [TagsField] else []
  }

  /** The errors of a save-draft request, one per rejected field, in chain order. */
  function SaveDraftErrors(body: SaveBody, parsesAsUrl: string -> bool): (e: seq<Field>)
    ensures TitleField in e <==> TitleRejected(body.title)
    ensures TagsField in e <==> body.tags.Malformed?
    ensures JsonFileUrlField in e <==> DraftUrlRejected(body.jsonFileUrl, parsesAsUrl)
    ensures |e| <= 3
  {
    TitleErrors(body.title) + TagsErrors(body.tags)
      + (if DraftUrlRejected(body.jsonFileUrl, parsesAsUrl) then [JsonFileUrlField] else [])
  }

  /** The errors of a publish request, one per rejected field, in chain order. */
  function PublishErrors(body: SaveBody, isUrl: string -> bool): (e: seq<Field>)
    ensures TitleField in e <==> TitleRejected(body.title)
    ensures TagsField in e <==> body.tags.Malformed?
    ensures JsonFileUrlField in e <==> PublishUrlRejected(body.jsonFileUrl, isUrl)
    ensures |e| <= 3
  {
    TitleErrors(body.title) + TagsErrors(body.tags)
      + (if PublishUrlRejected(body.jsonFileUrl, isUrl) then [JsonFileUrlField] else [])
  }

  /** PATCH validates the title only when it is sent. */
  function PatchErrors(body: PatchBody): (e: seq<Field>)
    ensures e == [] || e == [TitleField]
    ensures e == [] <==> body.title.None? || !TitleRejected(body.title.value)
  {
    if body.title.Some? then TitleErrors(body.title.value) else []
  }

  /** `findOne({ _id: id, user_id: caller })`: the record only if it exists and the caller owns it. */
  function FindOwned(table: map<SessionId, Session>, caller: UserId, id: SessionId): (r: Option<Session>)
    ensures r.Some? <==> id in table && table[id].owner == caller
    ensures r.Some? ==> r.value == table[id] && r.value.owner == caller
  {
    if id in table && table[id].owner == caller then Some(table[id]) else None
  }

  /** What every stored record satisfies: filed under its own non-empty id, a non-blank trimmed title, stamped before `clock`. */
  predicate WellFormed(id: SessionId, s: Session, clock: nat) {
    s.id == id && id != "" && s.title != "" && IsTrimmed(s.title)
    && s.createdAt <= s.updatedAt < clock
  }

  /** No two records were saved at the same instant, so `updated_at` orders them strictly. */
  predicate DistinctStamps(table: map<SessionId, Session>) {
    forall a, b :: a in table && b in table && a != b ==> table[a].updatedAt != table[b].updatedAt
  }

  predicate TableOk(table: map<SessionId, Session>, clock: nat) {
    (forall id :: id in table ==> WellFormed(id, table[id], clock)) && DistinctStamps(table)
  }

  /** Saving a well-formed record at the current instant keeps the table consistent for the next instant. */
  lemma {:induction false} SaveKeepsTableOk(table: map<SessionId, Session>, clock: nat, rec: Session)
    requires TableOk(table, clock)
    requires WellFormed(rec.id, rec, clock + 1) && rec.updatedAt == clock
    ensures TableOk(table[rec.id := rec], clock + 1)
  {
    var t := table[rec.id := rec];
    forall a, b | a in t && b in t && a != b
      ensures t[a].updatedAt != t[b].updatedAt
    {
      if a == rec.id {
        assert t[b] == table[b] && WellFormed(b, table[b], clock);
      } else if b == rec.id {
        assert t[a] == table[a] && WellFormed(a, table[a], clock);
      }
    }
  }

  /** Some non-empty id is not in use: the store can always generate a fresh one. */
  lemma {:induction false} FreshIdExists(table: map<SessionId, Session>)
    ensures exists id :: id != "" && id !in table
  {
    var n := LengthBound(table.Keys);
    var id := seq(n + 1, _ => 'x');
    assert id !in table;
  }

  lemma {:induction false} LengthBound(keys: set<string>) returns (n: nat)
    ensures forall k :: k in keys ==> |k| < n
  {
    if keys == {} {
      n := 0;
    } else {
      var k :| k in keys;
      var m := LengthBound(keys - {k});
      n := if |k| < m then m else |k| + 1;
    }
  }

  /** Listed newest first: `updated_at` strictly decreasing. */
  predicate NewestFirst(r: seq<Session>) {
    forall i, j :: 0 <= i < j < |r| ==> r[i].updatedAt > r[j].updatedAt
  }

  /** Insert a record into a newest-first list in front of the first older one. */
  function InsertNewest(s: Session, r: seq<Session>): (q: seq<Session>)
    ensures |q| == |r| + 1
    ensures forall x :: x in q <==> x == s || x in r
  {
    if r == [] || r[0].updatedAt < s.updatedAt then [s] + r
    else [r[0]] + InsertNewest(s, r[1..])
  }

  /** Inserting a record whose stamp differs from all others keeps a list strictly newest first. */
  lemma {:induction false} InsertNewestSorted(s: Session, r: seq<Session>)
    requires NewestFirst(r)
    requires forall x :: x in r ==> x.updatedAt != s.updatedAt
    ensures NewestFirst(InsertNewest(s, r))
  {
    if r != [] && r[0].updatedAt >= s.updatedAt {
      var rest := r[1..];
      assert forall x :: x in rest ==> x in r;
      InsertNewestSorted(s, rest);
      var q := InsertNewest(s, rest);
      assert q == [] || q[0] == s || q[0] == rest[0];
      assert r[0].updatedAt > s.updatedAt;
    }
  }

  /** The session store: the collection of records and the clock that stamps each save. */
  class Store {
    var sessions: map<SessionId, Session>
    var clock: nat
    /** `new URL(value)` does not throw. */
    const parsesAsUrl: string -> bool
    /** express-validator's `isURL()` accepts the value. */
    const isUrl: string -> bool

    ghost predicate Valid()
      reads this
    {
      TableOk(sessions, clock)
    }

    constructor (parsesAsUrl: string -> bool, isUrl: string -> bool)
      ensures Valid()
      ensures sessions == map[] && clock == 0
      ensures this.parsesAsUrl == parsesAsUrl && this.isUrl == isUrl
    {
      sessions := map[];
      clock := 0;
      this.parsesAsUrl := parsesAsUrl;
      this.isUrl := isUrl;
    }

    /** Store a record at the current instant and advance the clock. */
    method Put(rec: Session)
      requires Valid()
      requires WellFormed(rec.id, rec, clock + 1) && rec.updatedAt == clock
      modifies this
      ensures Valid()
      ensures sessions == old(sessions)[rec.id := rec] && clock == old(clock) + 1
    {
      SaveKeepsTableOk(sessions, clock, rec);
      sessions := sessions[rec.id := rec];
      clock := clock + 1;
    }

    /** An id no record uses, standing for a newly generated ObjectId. */
    method NewId() returns (id: SessionId)
      requires Valid()
      ensures id != "" && id !in sessions
    {
      FreshIdExists(sessions);
      id :| id != "" && id !in sessions;
    }

    /** `GET /:id` and `GET /my-sessions/:id`: the caller's record with that id, or 404. */
    method Get(caller: UserId, id: SessionId) returns (r: Result<Session>)
      requires Valid()
      ensures r.Ok? <==> FindOwned(sessions, caller, id).Some?
      ensures r.Ok? ==> r.value.id == id && r.value.owner == caller && r.value == sessions[id]
      ensures !r.Ok? ==> r == NotFound
    {
      var found := FindOwned(sessions, caller, id);
      if found.Some? {
        r := Ok(found.value);
      } else {
        r := NotFound;
      }
    }

    /** `POST /`: insert one record owned by the caller; content defaults to "", status to "draft". */
    method Create(caller: UserId, body: CreateBody) returns (r: Result<Session>)
      requires Valid()
      modifies this
      ensures Valid()
      ensures TitleRejected(body.title) ==>
        r == Invalid([TitleField]) && sessions == old(sessions) && clock == old(clock)
      ensures !TitleRejected(body.title) ==>
        r.Ok? && r.value.id !in old(sessions) && sessions == old(sessions)[r.value.id := r.value]
        && |sessions| == |old(sessions)| + 1 && clock == old(clock) + 1
        && r.value.owner == caller && r.value.title == Trim(body.title)
        && r.value.content == OrEmpty(body.content)
        && r.value.status == (if body.status.Some? then body.status.value else Draft)
        && r.value.tags == [] && r.value.jsonFileUrl == ""
        && r.value.createdAt == r.value.updatedAt == old(clock)
      ensures r.Ok? ==> FindOwned(sessions, caller, r.value.id) == Some(r.value)
    {
      var errors := TitleErrors(body.title);
      if errors != [] {
        return Invalid(errors);
      }
      var id := NewId();
      var status := if body.status.Some? then body.status.value else Draft;
      var rec := Session(id, caller, Trim(body.title), OrEmpty(body.content), [], "", status, clock, clock);
      Put(rec);
      r := Ok(rec);
    }

    /** `PATCH /:id`: overwrite only the supplied title, content and status of the caller's record. */
    method Patch(caller: UserId, id: SessionId, body: PatchBody) returns (r: Result<Session>)
      requires Valid()
      modifies this
      ensures Valid()
      ensures PatchErrors(body) != [] ==>
        r == Invalid(PatchErrors(body)) && sessions == old(sessions) && clock == old(clock)
      ensures PatchErrors(body) == [] && FindOwned(old(sessions), caller, id).None? ==>
        r == NotFound && sessions == old(sessions) && clock == old(clock)
      ensures PatchErrors(body) == [] && FindOwned(old(sessions), caller, id).Some? ==>
        var before := old(sessions)[id];
        r.Ok? && sessions == old(sessions)[id := r.value] && clock == old(clock) + 1
        && r.value.id == id && r.value.owner == before.owner
        && r.value.tags == before.tags && r.value.jsonFileUrl == before.jsonFileUrl
        && r.value.createdAt == before.createdAt && r.value.updatedAt == old(clock)
        && r.value.title == (if body.title.Some? then Trim(body.title.value) else before.title)
        && r.value.content == (if body.content.Some? then body.content.value else before.content)
        && r.value.status == (if body.status.Some? then body.status.value else before.status)
      ensures r.Ok? ==> FindOwned(sessions, caller, id) == Some(r.value)
    {
      var errors := PatchErrors(body);
      if errors != [] {
        return Invalid(errors);
      }
      var found := FindOwned(sessions, caller, id);
      if found.None? {
        return NotFound;
      }
      var rec := found.value;
      if body.title.Some? {
        rec := rec.(title := Trim(body.title.value));
      }
      if body.content.Some? {
        rec := rec.(content := body.content.value);
      }
      if body.status.Some? {
        rec := rec.(status := body.status.value);
      }
      rec := rec.(updatedAt := clock);
      Put(rec);
      r := Ok(rec);
    }

    /** `DELETE /:id` and `DELETE /my-sessions/:id`: remove the caller's record with that id, or 404. */
    method Delete(caller: UserId, id: SessionId) returns (r: Result<()>)
      requires Valid()
      modifies this
      ensures Valid()
      ensures FindOwned(old(sessions), caller, id).Some? ==>
        r == Ok(()) && sessions == old(sessions) - {id} && |sessions| == |old(sessions)| - 1
      ensures FindOwned(old(sessions), caller, id).None? ==> r == NotFound && sessions == old(sessions)
      ensures clock == old(clock)
      ensures FindOwned(sessions, caller, id).None?
    {
      if FindOwned(sessions, caller, id).Some? {
        sessions := sessions - {id};
        r := Ok(());
      } else {
        r := NotFound;
      }
    }

    /**
     * The shared body of save-draft and publish once validation has passed:
     * overwrite the caller's record named by a truthy `sessionId`, or insert a new one.
     */
    method Upsert(caller: UserId, sessionId: Option<SessionId>, title: string, tags: seq<string>, url: string, status: string)
      returns (r: Result<Session>)
      requires Valid()
      requires title != "" && IsTrimmed(title)
      modifies this
      ensures Valid()
      ensures Truthy(sessionId) && FindOwned(old(sessions), caller, sessionId.value).None? ==>
        r == NotFound && sessions == old(sessions) && clock == old(clock)
      ensures Truthy(sessionId) && FindOwned(old(sessions), caller, sessionId.value).Some? ==>
        var before := old(sessions)[sessionId.value];
        r == Ok(before.(title := title, tags := tags, jsonFileUrl := url, status := status, updatedAt := old(clock)))
        && sessions == old(sessions)[sessionId.value := r.value]
        && |sessions| == |old(sessions)| && clock == old(clock) + 1
      ensures !Truthy(sessionId) ==>
        r.Ok? && r.value.id !in old(sessions)
        && r.value == Session(r.value.id, caller, title, "", tags, url, status, old(clock), old(clock))
        && sessions == old(sessions)[r.value.id := r.value]
        && |sessions| == |old(sessions)| + 1 && clock == old(clock) + 1
      ensures r.Ok? ==> r.value.owner == caller && FindOwned(sessions, caller, r.value.id) == Some(r.value)
    {
      if Truthy(sessionId) {
        var found := FindOwned(sessions, caller, sessionId.value);
        if found.None? {
          return NotFound;
        }
        var rec := found.value.(title := title, tags := tags, jsonFileUrl := url, status := status, updatedAt := clock);
        Put(rec);
        r := Ok(rec);
      } else {
        var id := NewId();
        var rec := Session(id, caller, title, "", tags, url, status, clock, clock);
        Put(rec);
        r := Ok(rec);
      }
    }

    /** `POST /my-sessions/save-draft`: validate, then upsert a draft; a missing URL is stored as "". */
    method SaveDraft(caller: UserId, body: SaveBody) returns (r: Result<Session>)
      requires Valid()
      modifies this
      ensures Valid()
      ensures SaveDraftErrors(body, parsesAsUrl) != [] ==>
        r == Invalid(SaveDraftErrors(body, parsesAsUrl)) && sessions == old(sessions) && clock == old(clock)
      ensures (SaveDraftErrors(body, parsesAsUrl) == [] && Truthy(body.sessionId)
        && FindOwned(old(sessions), caller, body.sessionId.value).None?) ==>
        r == NotFound && sessions == old(sessions) && clock == old(clock)
      ensures (SaveDraftErrors(body, parsesAsUrl) == [] && Truthy(body.sessionId)
        && FindOwned(old(sessions), caller, body.sessionId.value).Some?) ==>
        var before := old(sessions)[body.sessionId.value];
        r.Ok? && sessions == old(sessions)[before.id := r.value] && |sessions| == |old(sessions)|
        && r.value.id == before.id && r.value.owner == before.owner && r.value.content == before.content
        && r.value.createdAt == before.createdAt
      ensures SaveDraftErrors(body, parsesAsUrl) == [] && !Truthy(body.sessionId) ==>
        r.Ok? && r.value.id !in old(sessions) && sessions == old(sessions)[r.value.id := r.value]
        && |sessions| == |old(sessions)| + 1 && r.value.content == "" && r.value.createdAt == old(clock)
      ensures r.Ok? ==>
        r.value.owner == caller && r.value.title == Trim(body.title) && r.value.tags == Stored(body.tags)
        && r.value.jsonFileUrl == OrEmpty(body.jsonFileUrl) && r.value.status == Draft
        && r.value.updatedAt == old(clock) && clock == old(clock) + 1
        && FindOwned(sessions, caller, r.value.id) == Some(r.value)
    {
      var errors := SaveDraftErrors(body, parsesAsUrl);
      if errors != [] {
        return Invalid(errors);
      }
      r := Upsert(caller, body.sessionId, Trim(body.title), Stored(body.tags), OrEmpty(body.jsonFileUrl), Draft);
    }

    /** `POST /my-sessions/publish`: validate (the URL is required), then upsert a published session. */
    method Publish(caller: UserId, body: SaveBody) returns (r: Result<Session>)
      requires Valid()
      modifies this
      ensures Valid()
      ensures PublishErrors(body, isUrl) != [] ==>
        r == Invalid(PublishErrors(body, isUrl)) && sessions == old(sessions) && clock == old(clock)
      ensures (PublishErrors(body, isUrl) == [] && Truthy(body.sessionId)
        && FindOwned(old(sessions), caller, body.sessionId.value).None?) ==>
        r == NotFound && sessions == old(sessions) && clock == old(clock)
      ensures (PublishErrors(body, isUrl) == [] && Truthy(body.sessionId)
        && FindOwned(old(sessions), caller, body.sessionId.value).Some?) ==>
        var before := old(sessions)[body.sessionId.value];
        r.Ok? && sessions == old(sessions)[before.id := r.value] && |sessions| == |old(sessions)|
        && r.value.id == before.id && r.value.owner == before.owner && r.value.content == before.content
        && r.value.createdAt == before.createdAt
      ensures PublishErrors(body, isUrl) == [] && !Truthy(body.sessionId) ==>
        r.Ok? && r.value.id !in old(sessions) && sessions == old(sessions)[r.value.id := r.value]
        && |sessions| == |old(sessions)| + 1 && r.value.content == "" && r.value.createdAt == old(clock)
      ensures r.Ok? ==>
        body.jsonFileUrl.Some? && r.value.jsonFileUrl == body.jsonFileUrl.value && isUrl(r.value.jsonFileUrl)
        && r.value.owner == caller && r.value.title == Trim(body.title) && r.value.tags == Stored(body.tags)
        && r.value.status == Published && r.value.updatedAt == old(clock) && clock == old(clock) + 1
        && FindOwned(sessions, caller, r.value.id) == Some(r.value)
    {
      var errors := PublishErrors(body, isUrl);
      if errors != [] {
        return Invalid(errors);
      }
      r := Upsert(caller, body.sessionId, Trim(body.title), Stored(body.tags), body.jsonFileUrl.value, Published);
    }

    /** The records satisfying `keep`, newest first: a `find(...).sort({ updated_at: -1 })`. */
    method Select(keep: Session -> bool) returns (r: seq<Session>)
      requires Valid()
      ensures forall s :: s in r <==> s.id in sessions && sessions[s.id] == s && keep(s)
      ensures NewestFirst(r)
    {
      r := [];
      var pending := sessions.Keys;
      while pending != {}
        invariant pending <= sessions.Keys
        invariant forall s :: s in r <==> s.id in sessions && s.id !in pending && sessions[s.id] == s && keep(s)
        invariant NewestFirst(r)
        decreases |pending|
      {
        var id :| id in pending;
        var s := sessions[id];
        if keep(s) {
          forall x | x in r ensures x.updatedAt != s.updatedAt {
            assert x.id != id;
          }
          InsertNewestSorted(s, r);
          r := InsertNewest(s, r);
        }
        pending := pending - {id};
      }
    }

    /** `GET /`: exactly the published sessions, newest first. */
    method ListPublished() returns (r: seq<Session>)
      requires Valid()
      ensures forall s :: s in r <==> s.id in sessions && sessions[s.id] == s && s.status == Published
      ensures NewestFirst(r)
    {
      r := Select((s: Session) => s.status == Published);
    }

    /** `GET /my-sessions`: exactly the caller's sessions, drafts and published, newest first. */
    method ListMine(caller: UserId) returns (r: seq<Session>)
      requires Valid()
      ensures forall s :: s in r <==> s.id in sessions && sessions[s.id] == s && s.owner == caller
      ensures NewestFirst(r)
    {
      r := Select((s: Session) => s.owner == caller);
    }
  }

  /** Deleting the same session twice: the first call succeeds, the second finds nothing. */
  method DeleteTwice(store: Store, caller: UserId, id: SessionId) returns (first: Result<()>, second: Result<()>)
    requires store.Valid()
    requires FindOwned(store.sessions, caller, id).Some?
    modifies store
    ensures store.Valid()
    ensures first == Ok(()) && second == NotFound
    ensures store.sessions == old(store.sessions) - {id}
  {
    first := store.Delete(caller, id);
    second := store.Delete(caller, id);
  }

  /** `create` followed by `get`: the caller reads back the record just created. */
  method CreateThenGet(store: Store, caller: UserId, body: CreateBody) returns (created: Result<Session>, read: Result<Session>)
    requires store.Valid()
    requires !TitleRejected(body.title)
    modifies store
    ensures store.Valid()
    ensures created.Ok? && read == created
    ensures read.value.title == Trim(body.title) && read.value.content == OrEmpty(body.content)
    ensures read.value.status == (if body.status.Some? then body.status.value else Draft)
  {
    created := store.Create(caller, body);
    read := store.Get(caller, created.value.id);
  }

  /**
   * Publishing a new session and then saving a draft with the returned id
   * updates that same record: one record is added in all, and it is a draft again.
   */
  method PublishThenDraft(store: Store, caller: UserId, body: SaveBody) returns (published: Result<Session>, drafted: Result<Session>)
    requires store.Valid()
    requires PublishErrors(body, store.isUrl) == [] && SaveDraftErrors(body, store.parsesAsUrl) == []
    requires !Truthy(body.sessionId)
    modifies store
    ensures store.Valid()
    ensures published.Ok? && published.value.status == Published
    ensures drafted.Ok? && drafted.value.id == published.value.id && drafted.value.status == Draft
    ensures |store.sessions| == |old(store.sessions)| + 1
  {
    published := store.Publish(caller, body);
    var again := body.(sessionId := Some(published.value.id));
    assert SaveDraftErrors(again, store.parsesAsUrl) == SaveDraftErrors(body, store.parsesAsUrl);
    assert Truthy(again.sessionId) && FindOwned(store.sessions, caller, published.value.id).Some?;
    drafted := store.SaveDraft(caller, again);
  }

  /** Nothing but the publish route checks the URL: creating a session with status "published" and no URL succeeds. */
  method PublishedWithoutUrl(store: Store, caller: UserId) returns (r: Result<Session>)
    requires store.Valid()
    modifies store
    ensures store.Valid()
    ensures r.Ok? && r.value.status == Published && r.value.jsonFileUrl == ""
  {
    assert IsTrimmed("Walk");
    r := store.Create(caller, CreateBody("Walk", None, Some(Published)));
  }
}
