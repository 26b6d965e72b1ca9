/**
 * The multi-field authentication backend: one identifier is matched against the username,
 * the email and the student roll number; the user is returned only when the password checks.
 */
module AuthBackend {
  import opened Common
  import opened Accounts

  /** The identifier names this user by username, email, or the roll number of its student row. */
  predicate MatchesIdentifier(users: map<nat, User>, students: map<nat, StudentRow>, uid: nat, ident: string)
    requires uid in users
  {
    users[uid].username == ident || users[uid].email == ident
    || exists s :: s in students && students[s].user == uid && students[s].rollNo == ident
  }

  /** The users the `username | email | student__roll_no` query selects. */
  function Matching(users: map<nat, User>, students: map<nat, StudentRow>, ident: string): (ids: set<nat>)
    ensures ids <= users.Keys
    ensures forall uid :: uid in ids <==> uid in users && MatchesIdentifier(users, students, uid, ident)
  {
    set uid | uid in users && MatchesIdentifier(users, students, uid, ident)
  }

  /** What `authenticate` does: return a user, return `None`, or let `MultipleObjectsReturned` escape. */
  datatype AuthResult = Authenticated(uid: nat) | NoUser | MultipleMatches

  function Authenticate(users: map<nat, User>, students: map<nat, StudentRow>, ident: string,
                        password: Option<string>): (r: AuthResult)
    ensures r.Authenticated? ==> r.uid in users && Matching(users, students, ident) == {r.uid}
                                 && password.Some? && CheckPassword(password.value, users[r.uid].password)
    ensures r.MultipleMatches? <==> |Matching(users, students, ident)| >= 2
    ensures Matching(users, students, ident) == {} ==> r == NoUser
  {
    var ids := Matching(users, students, ident);
    if |ids| == 0 then NoUser
    else if |ids| >= 2 then MultipleMatches
    else
      var uid := Single(ids);
      if password.Some? && CheckPassword(password.value, users[uid].password) then Authenticated(uid)
      else NoUser
  }

  /** With a single matching user, authentication succeeds exactly when the password is its password. */
  lemma AuthenticateSingleMatch(users: map<nat, User>, students: map<nat, StudentRow>, ident: string,
                                uid: nat, password: string)
    requires Matching(users, students, ident) == {uid}
    ensures Authenticate(users, students, ident, Some(password)) == Authenticated(uid)
            <==> users[uid].password == Hashed(password)
    ensures Authenticate(users, students, ident, None) == NoUser
  {
    assert uid in Matching(users, students, ident);
  }

  /** Any of the three identifiers reaches a user whose identifiers clash with no other user. */
  lemma AuthenticateByAnyIdentifier(d: Directory, uid: nat, sid: nat, password: string)
    requires d.Valid() && uid in d.users && sid in d.students && d.students[sid].user == uid
    requires d.users[uid].password == Hashed(password)
    requires forall other :: other in d.users && other != uid ==>
               d.users[other].username != d.students[sid].rollNo && d.users[other].email != d.students[sid].rollNo
               && d.users[other].username != d.users[uid].email && d.users[other].email != d.users[uid].username
               && (forall t :: t in d.students && d.students[t].user == other ==>
                     d.students[t].rollNo != d.users[uid].username && d.students[t].rollNo != d.users[uid].email
                     && d.students[t].rollNo != d.students[sid].rollNo)
    ensures Authenticate(d.users, d.students, d.users[uid].username, Some(password)) == Authenticated(uid)
    ensures Authenticate(d.users, d.students, d.users[uid].email, Some(password)) == Authenticated(uid)
    ensures Authenticate(d.users, d.students, d.students[sid].rollNo, Some(password)) == Authenticated(uid)
  {
    var u := d.users[uid];
    var roll := d.students[sid].rollNo;
    forall ident | ident in {u.username, u.email, roll}
      ensures Matching(d.users, d.students, ident) == {uid}
    {
      assert MatchesIdentifier(d.users, d.students, uid, ident);
    }
    AuthenticateSingleMatch(d.users, d.students, u.username, uid, password);
    AuthenticateSingleMatch(d.users, d.students, u.email, uid, password);
    AuthenticateSingleMatch(d.users, d.students, roll, uid, password);
  }

  /** A username equal to another user's email makes the query ambiguous, and the lookup raises. */
  lemma AmbiguousIdentifierRaises(users: map<nat, User>, students: map<nat, StudentRow>, a: nat, b: nat)
    requires a in users && b in users && a != b && users[a].username == users[b].email
    ensures Authenticate(users, students, users[a].username, None) == MultipleMatches
  {
    var ids := Matching(users, students, users[a].username);
    assert {a, b} <= ids;
    assert |{a, b}| == 2;
    SubsetCardinality({a, b}, ids);
  }

  lemma SubsetCardinality(a: set<nat>, b: set<nat>)
    requires a <= b
    ensures |a| <= |b|
  {
    assert b == a + (b - a);
  }

  /** `get_user`: the user with that primary key, or `None`. */
  function GetUser(users: map<nat, User>, uid: nat): (r: Option<User>)
    ensures r.None? <==> uid !in users
    ensures r.Some? ==> r.value == users[uid]
  {
    Lookup(users, uid)
  }
}
