/**
 * The own-sessions page: the list the server returned, the status filter
 * buttons with their counts, and the list after a delete.
 */
module MySessions {
  import opened Lists
  import opened SessionService

  /** The filter button value: "all", or a status to match exactly. */
  const ShowAll: string := "all"

  /** The predicate of `sessions.filter(...)` for a filter value. */
  function Keeps(filter: string): Session -> bool {
    (s: Session) => filter == ShowAll || s.status == filter
  }

  /** `filteredSessions`: the sessions shown under the current filter. */
  function Filtered(sessions: seq<Session>, filter: string): (r: seq<Session>)
    ensures filter == ShowAll ==> r == sessions
    ensures filter != ShowAll ==> forall s :: s in r <==> s in sessions && s.status == filter
  {
    if filter == ShowAll then FilterAll(sessions, Keeps(filter)); Filter(sessions, Keeps(filter))
    else Filter(sessions, Keeps(filter))
  }

  /** Filtering keeps the server's order: it commutes with splitting the list anywhere. */
  lemma {:induction false} FilteredKeepsOrder(a: seq<Session>, b: seq<Session>, filter: string)
    ensures Filtered(a + b, filter) == Filtered(a, filter) + Filtered(b, filter)
  {
    FilterConcat(a, b, Keeps(filter));
  }

  predicate IsDraft(s: Session) {
    s.status == Draft
  }

  predicate IsPublished(s: Session) {
    s.status == Published
  }

  /** The number on the "Drafts" button. */
  function DraftCount(sessions: seq<Session>): (n: nat)
    ensures n == Count(sessions, IsDraft) && n <= |sessions|
  {
    FilterLength(sessions, IsDraft);
    |Filter(sessions, IsDraft)|
  }

  /** The number on the "Published" button. */
  function PublishedCount(sessions: seq<Session>): (n: nat)
    ensures n == Count(sessions, IsPublished) && n <= |sessions|
  {
    FilterLength(sessions, IsPublished);
    |Filter(sessions, IsPublished)|
  }

  /** The two status counts never exceed the "All" count, and fill it when every session is a draft or published. */
  lemma {:induction false} CountsWithinTotal(sessions: seq<Session>)
    ensures DraftCount(sessions) + PublishedCount(sessions) <= |sessions|
    ensures (forall s :: s in sessions ==> s.status == Draft || s.status == Published) ==>
      DraftCount(sessions) + PublishedCount(sessions) == |sessions|
  {
    CountDisjoint(sessions, IsDraft, IsPublished);
  }

  /** The list after `deleteSession`: unchanged unless the user confirmed and the request succeeded. */
  function AfterDelete(sessions: seq<Session>, id: SessionId, confirmed: bool, succeeded: bool): (r: seq<Session>)
    ensures !(confirmed && succeeded) ==> r == sessions
    ensures confirmed && succeeded ==> forall s :: s in r <==> s in sessions && s.id != id
    ensures |r| <= |sessions|
  {
    if confirmed && succeeded then Filter(sessions, (s: Session) => s.id != id) else sessions
  }

  /** Every session of the list carries a different id. */
  predicate DistinctIds(sessions: seq<Session>) {
    forall i, j :: 0 <= i < j < |sessions| ==> sessions[i].id != sessions[j].id
  }

  /**
   * The server's listings (`Store.ListMine`) have distinct ids: each entry is
   * the record filed under its id, and the strict newest-first order never
   * holds one record twice.
   */
  lemma {:induction false} ListingDistinctIds(table: map<SessionId, Session>, r: seq<Session>)
    requires forall s :: s in r ==> s.id in table && table[s.id] == s
    requires NewestFirst(r)
    ensures DistinctIds(r)
  {
    forall i, j | 0 <= i < j < |r|
      ensures r[i].id != r[j].id
    {
      assert r[i] in r && r[j] in r;
      assert r[i].updatedAt > r[j].updatedAt;
    }
  }

  /** A confirmed, successful delete of a listed session shortens a list with distinct ids by exactly one. */
  lemma {:induction false} DeleteRemovesOne(sessions: seq<Session>, id: SessionId)
    requires DistinctIds(sessions)
    requires exists s :: s in sessions && s.id == id
    ensures |AfterDelete(sessions, id, true, true)| == |sessions| - 1
  {
    var k :| 0 <= k < |sessions| && sessions[k].id == id;
    var keep := (s: Session) => s.id != id;
    assert sessions == sessions[..k] + [sessions[k]] + sessions[k + 1..];
    FilterConcat(sessions[..k] + [sessions[k]], sessions[k + 1..], keep);
    FilterConcat(sessions[..k], [sessions[k]], keep);
    FilterAll(sessions[..k], keep);
    FilterAll(sessions[k + 1..], keep);
  }
}
