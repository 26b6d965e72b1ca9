/**
 * The recruitment endpoints: the admin status update, the public list of sessions open for
 * applications, the review listing's filters and the HTTP methods each endpoint accepts.
 */
module RecruitmentViews {
  import opened Common
  import opened Text
  import opened Formats
  import opened Seqs
  import opened RecruitmentModel

  datatype Response = Response(code: nat, body: map<string, string>)

  /**
   * `update_status`: an unknown application is 404; a missing or empty status is 400 and
   * changes nothing; otherwise the status becomes exactly the supplied string, whatever it
   * was before and whether or not it is a choice.
   */
  method UpdateStatus(db: ApplicationTables, id: nat, newStatus: Option<string>) returns (resp: Response)
    requires db.Valid()
    modifies db
    ensures db.Valid()
    ensures id !in old(db.applications) ==> resp.code == 404 && db.applications == old(db.applications)
    ensures id in old(db.applications) && (newStatus.None? || newStatus.value == "") ==>
              resp == Response(400, map["error" := "Status field is required."])
              && db.applications == old(db.applications)
    ensures id in old(db.applications) && newStatus.Some? && newStatus.value != "" ==>
              resp == Response(200, map["status" := "updated"])
              && db.applications == old(db.applications)[id := old(db.applications)[id].(status := newStatus.value)]
    ensures db.personal == old(db.personal) && db.academic == old(db.academic)
    ensures db.preferences == old(db.preferences)
  {
    if id !in db.applications {
      return Response(404, map["detail" := "Not found."]);
    }
    if newStatus.None? || newStatus.value == "" {
      return Response(400, map["error" := "Status field is required."]);
    }
    var application := db.applications[id];
    application := application.(status := newStatus.value);
    db.applications := db.applications[id := application];
    resp := Response(200, map["status" := "updated"]);
  }

  /** A session whose application window, both ends included, contains `today`. */
  predicate IsOpenOn(s: Session, today: int)
  {
    s.applicationStart.Some? && s.applicationEnd.Some?
    && s.applicationStart.value <= today && today <= s.applicationEnd.value
  }

  /** `ActiveRecruitmentSessionView.get_queryset`: the sessions open today. */
  function ActiveSessions(rows: map<nat, Session>, today: int): (ids: set<nat>)
    ensures ids <= rows.Keys
    ensures forall id :: id in ids <==> id in rows && IsOpenOn(rows[id], today)
  {
    set id | id in rows && IsOpenOn(rows[id], today)
  }

  /** Both ends of the window count: a session opening and closing today is listed. */
  lemma ActiveWindowInclusive(rows: map<nat, Session>, id: nat, s: Session, today: int)
    requires id in rows && rows[id] == s
    requires s.applicationStart == Some(today) && s.applicationEnd == Some(today)
    ensures id in ActiveSessions(rows, today)
    ensures id !in ActiveSessions(rows, today + 1) && id !in ActiveSessions(rows, today - 1)
  {
  }

  /** A stored session that is open today has not reached its interviews or its result yet. */
  lemma ActiveSessionBeforeInterviews(t: SessionTable, today: int, id: nat)
    requires t.Valid()
    requires id in ActiveSessions(t.rows, today)
    ensures today <= t.rows[id].interviewStart.value <= t.rows[id].resultDate.value
  {
    CleanPassesIffOrdered(t.rows[id]);
  }

  /** The HTTP methods an endpoint accepts; the dispatcher compares the lower-cased request method. */
  const SubmitMethods: set<string> := {"post"}
  const StatusMethods: set<string> := {"patch", "get"}

  predicate MethodAllowed(allowed: set<string>, verb: string)
  {
    Lower(verb) in allowed
  }

  lemma SubmitOnlyPost(m: string)
    ensures MethodAllowed(SubmitMethods, m) <==> Lower(m) == "post"
    ensures MethodAllowed(SubmitMethods, "POST") && !MethodAllowed(SubmitMethods, "GET")
    ensures MethodAllowed(StatusMethods, "PATCH") && MethodAllowed(StatusMethods, "GET")
    ensures !MethodAllowed(StatusMethods, "PUT") && !MethodAllowed(StatusMethods, "DELETE")
  {
    assert Lower("POST") == "post";
    assert Lower("GET") == "get";
    assert Lower("PATCH") == "patch";
    assert Lower("PUT") == "put";
    assert Lower("DELETE") == "delete";
  }

  // ---------------------------------------------------------------- the review listing

  /** The review listing's query parameters, each absent or the raw text given. */
  datatype ReviewQuery = ReviewQuery(search: Option<string>, status: Option<string>, session: Option<string>)

  /** The filter fields whose value the filter form refuses. */
  datatype ReviewFilter = StatusFilter | SessionFilter

  /** A listing, or the 400 that names the refused filters. */
  datatype ReviewResponse = Listed(rows: seq<(nat, Application)>) | BadFilter(fields: set<ReviewFilter>)

  /** A parameter that restricts: given and not the empty text. */
  predicate Given(p: Option<string>)
  {
    p.Some? && p.value != ""
  }

  /** The session a `recruitment_session` value names: `int()` of the text, when that is a stored id. */
  predicate NamesSession(v: string, sessions: set<nat>)
  {
    PyInt(v).Some? && PyInt(v).value >= 0 && PyInt(v).value as nat in sessions
  }

  /**
   * The filter form: `status` must be one of the column's choices and `recruitment_session`
   * must name a stored session; an empty value is no filter.
   */
  function FilterErrors(q: ReviewQuery, sessions: set<nat>): (errs: set<ReviewFilter>)
    ensures StatusFilter in errs <==> Given(q.status) && !IsStatusChoice(q.status.value)
    ensures SessionFilter in errs <==> Given(q.session) && !NamesSession(q.session.value, sessions)
  {
    (if Given(q.status) && !IsStatusChoice(q.status.value) then {StatusFilter} else {})
    + (if Given(q.session) && !NamesSession(q.session.value, sessions) then {SessionFilter} else {})
  }

  /** A character that ends a search term: white space or a comma. */
  predicate IsTermSeparator(c: char)
  {
    IsSpace(c) || c == ','
  }

  /** A search term: non-empty, with no separator and no NUL. */
  predicate IsTerm(t: string)
  {
    t != [] && forall k :: 0 <= k < |t| ==> !IsTermSeparator(t[k]) && t[k] != '\0'
  }

  /** The terms of `s` after the partial term `cur`: NULs are dropped, commas count as white space. */
  function TermsFrom(s: string, cur: string): (terms: seq<string>)
    requires cur == [] || IsTerm(cur)
    ensures forall i :: 0 <= i < |terms| ==> IsTerm(terms[i])
    decreases |s|
  {
    if s == [] then (if cur == [] then [] else [cur])
    else if s[0] == '\0' then TermsFrom(s[1..], cur)
    else if IsTermSeparator(s[0]) then (if cur == [] then [] else [cur]) + TermsFrom(s[1..], [])
    else TermsFrom(s[1..], cur + [s[0]])
  }

  /** `get_search_terms`: the `search` parameter split into its terms. */
  function SearchTerms(s: string): (terms: seq<string>)
    ensures forall i :: 0 <= i < |terms| ==> IsTerm(terms[i])
  {
    TermsFrom(s, [])
  }

  /** A single term with nothing to split off is the only term. */
  lemma {:induction false} SingleTerm(s: string)
    requires IsTerm(s)
    ensures SearchTerms(s) == [s]
  {
    TermsAppend(s, []);
    assert [] + s == s;
  }

  lemma {:induction false} TermsAppend(s: string, cur: string)
    requires cur == [] || IsTerm(cur)
    requires forall k :: 0 <= k < |s| ==> !IsTermSeparator(s[k]) && s[k] != '\0'
    ensures cur + s == [] ==> TermsFrom(s, cur) == []
    ensures cur + s != [] ==> TermsFrom(s, cur) == [cur + s]
    decreases |s|
  {
    if s == [] {
      assert cur + s == cur;
    } else {
      var next := cur + [s[0]];
      assert IsTerm(next) by {
        forall k | 0 <= k < |next|
          ensures !IsTermSeparator(next[k]) && next[k] != '\0'
        {
          if k < |cur| { assert next[k] == cur[k]; } else { assert next[k] == s[0]; }
        }
      }
      assert next + s[1..] == cur + s;
      TermsAppend(s[1..], next);
    }
  }

  /** Separators alone give no term, so such a search does not restrict. */
  lemma BlankSearchHasNoTerms()
    ensures SearchTerms("") == [] && SearchTerms(" , ") == []
  {
  }

  /** `icontains` on the status for every term: each term occurs in it, letter case ignored. */
  predicate SearchMatches(status: string, terms: seq<string>)
  {
    forall i :: 0 <= i < |terms| ==> Contains(Lower(status), Lower(terms[i]))
  }

  /** An application passes the search and every filter given. */
  predicate ReviewMatches(a: (nat, Application), q: ReviewQuery)
  {
    (q.search.None? || SearchMatches(a.1.status, SearchTerms(q.search.value)))
    && (!Given(q.status) || a.1.status == q.status.value)
    && (!Given(q.session) || PyInt(q.session.value) == Some(a.1.session as int))
  }

  /** Newest first. */
  predicate NewestFirstOrdered(rows: seq<(nat, Application)>)
  {
    forall i, j :: 0 <= i < j < |rows| ==> rows[i].1.submittedAt >= rows[j].1.submittedAt
  }

  function InsertNewest(x: (nat, Application), rows: seq<(nat, Application)>): (r: seq<(nat, Application)>)
    requires NewestFirstOrdered(rows)
    ensures NewestFirstOrdered(r)
    ensures multiset(r) == multiset(rows) + multiset{x}
    ensures |r| == |rows| + 1 && (r[0] == x || (rows != [] && r[0] == rows[0]))
    decreases |rows|
  {
    if rows == [] then [x]
    else if x.1.submittedAt >= rows[0].1.submittedAt then
      ConsOrdered(x, rows);
      [x] + rows
    else
      var rest := InsertNewest(x, rows[1..]);
      InsertBehind(x, rows, rest);
      [rows[0]] + rest
  }

  /** Putting the first row back in front of `x` inserted among the others. */
  lemma InsertBehind(x: (nat, Application), rows: seq<(nat, Application)>, rest: seq<(nat, Application)>)
    requires rows != [] && NewestFirstOrdered(rows) && x.1.submittedAt < rows[0].1.submittedAt
    requires NewestFirstOrdered(rest) && multiset(rest) == multiset(rows[1..]) + multiset{x}
    requires |rest| == |rows| && (rest[0] == x || (rows[1..] != [] && rest[0] == rows[1..][0]))
    ensures NewestFirstOrdered([rows[0]] + rest)
    ensures multiset([rows[0]] + rest) == multiset(rows) + multiset{x}
  {
    ConsOrdered(rows[0], rest);
    assert rows == [rows[0]] + rows[1..];
  }

  /** A row no older than the first of an ordered list keeps it ordered when put in front. */
  lemma ConsOrdered(y: (nat, Application), rows: seq<(nat, Application)>)
    requires NewestFirstOrdered(rows)
    requires rows == [] || y.1.submittedAt >= rows[0].1.submittedAt
    ensures NewestFirstOrdered([y] + rows)
  {
    var r := [y] + rows;
    forall i, j | 0 <= i < j < |r|
      ensures r[i].1.submittedAt >= r[j].1.submittedAt
    {
      assert r[j] == rows[j - 1];
      if i > 0 { assert r[i] == rows[i - 1]; }
    }
  }

  /** `ordering = ['-submitted_at']`: the rows rearranged newest first. */
  function NewestFirst(rows: seq<(nat, Application)>): (r: seq<(nat, Application)>)
    ensures NewestFirstOrdered(r)
    ensures multiset(r) == multiset(rows)
    decreases |rows|
  {
    if rows == [] then []
    else
      assert rows == [rows[0]] + rows[1..];
      InsertNewest(rows[0], NewestFirst(rows[1..]))
  }

  /**
   * `ApplicationReviewViewSet.list`: a refused filter value is a 400 naming it; otherwise the
   * applications that pass the search and the filters, newest first.
   */
  function ReviewList(apps: seq<(nat, Application)>, sessions: set<nat>, q: ReviewQuery): (r: ReviewResponse)
    ensures r.BadFilter? <==> FilterErrors(q, sessions) != {}
    ensures r.BadFilter? ==> r.fields == FilterErrors(q, sessions)
    ensures r.Listed? ==> NewestFirstOrdered(r.rows)
    ensures r.Listed? ==> multiset(r.rows) == multiset(Filter(apps, a => ReviewMatches(a, q)))
    ensures r.Listed? ==> forall a :: a in r.rows <==> a in apps && ReviewMatches(a, q)
  {
    if FilterErrors(q, sessions) != {} then BadFilter(FilterErrors(q, sessions))
    else
      var kept := Filter(apps, a => ReviewMatches(a, q));
      forall a ensures a in kept <==> a in apps && ReviewMatches(a, q) {
        FilterMembership(apps, a => ReviewMatches(a, q), a);
      }
      var rows := NewestFirst(kept);
      assert forall a :: a in rows <==> a in multiset(rows);
      Listed(rows)
  }

  /** With no parameter given, every application is listed, newest first. */
  lemma ReviewListUnfiltered(apps: seq<(nat, Application)>, sessions: set<nat>)
    ensures ReviewList(apps, sessions, ReviewQuery(None, None, None)) == Listed(NewestFirst(apps))
    ensures multiset(NewestFirst(apps)) == multiset(apps)
  {
    FilterAll(apps, a => ReviewMatches(a, ReviewQuery(None, None, None)));
  }

  /**
   * A submitted application cannot be filtered by the status it is stored with: "Under Review"
   * is not a choice, so the filter is refused.
   */
  lemma UnderReviewFilterRefused(apps: seq<(nat, Application)>, sessions: set<nat>)
    ensures ReviewList(apps, sessions, ReviewQuery(None, Some("Under Review"), None)) == BadFilter({StatusFilter})
  {
    StatusChoices("Under Review");
    assert FilterErrors(ReviewQuery(None, Some("Under Review"), None), sessions) == {StatusFilter};
  }

  /** A search for "under" finds a submitted application, whose status is "Under Review". */
  lemma SearchFindsUnderReview()
    ensures SearchMatches("Under Review", SearchTerms("under"))
  {
    SingleTerm("under");
    assert Lower("Under Review")[0..] == "under review";
    assert StartsWith(Lower("Under Review")[0..], "under");
  }

  /** A session filter naming no stored session is refused, whatever the status filter. */
  lemma UnknownSessionRefused(apps: seq<(nat, Application)>, sessions: set<nat>, q: ReviewQuery, id: nat)
    requires q.session == Some(NatToString(id)) && id !in sessions
    ensures ReviewList(apps, sessions, q).BadFilter?
    ensures SessionFilter in ReviewList(apps, sessions, q).fields
  {
    PyIntRoundTrip(id);
    assert !NamesSession(q.session.value, sessions);
    assert SessionFilter in FilterErrors(q, sessions);
  }
}
