/**
 * The student views: the staff student list scoped by club, the profile PATCH that parses
 * `user[field]` form keys with change detection, and deletion of a student with its user.
 */
module UserViews {
  import opened Common
  import opened Text
  import opened Accounts
  import opened UserSerializers

  /** A listing, or the server error raised when a lead has no student row. */
  datatype Listing = Listed(ids: set<nat>) | NoStudentRow

  /**
   * `StudentsListView.get_queryset`: a lead lists the students of their own club; any other
   * caller lists every student.
   */
  function StudentsList(db: Directory, caller: nat): (r: Listing)
    reads db
    requires db.Valid() && caller in db.users
    ensures r.NoStudentRow? <==> db.users[caller].role == RoleLead && db.StudentOf(caller).None?
    ensures r.Listed? ==> r.ids <= db.students.Keys
  {
    if db.users[caller].role == RoleLead then
      match db.StudentOf(caller)
      case None => NoStudentRow
      case Some(own) => Listed(set s | s in db.students && db.students[s].club == db.students[own].club)
    else Listed(db.students.Keys)
  }

  /** A lead sees exactly the students sharing their club, themselves included; others see all. */
  lemma StudentsListScope(db: Directory, caller: nat, own: nat, s: nat)
    requires db.Valid() && caller in db.users && own in db.students && db.students[own].user == caller
    ensures db.users[caller].role == RoleLead ==>
              StudentsList(db, caller).Listed?
              && (s in StudentsList(db, caller).ids <==> s in db.students && db.students[s].club == db.students[own].club)
              && own in StudentsList(db, caller).ids
    ensures db.users[caller].role != RoleLead ==> StudentsList(db, caller) == Listed(db.students.Keys)
  {
    var r := db.StudentOf(caller);
    assert r.Some? && r.value == own;
  }

  // ---------------------------------------------------------------- PATCH parsing

  /** The form data of a profile PATCH: picture, description and the changed user fields. */
  datatype PatchData = PatchData(pic: Option<string>, desc: Option<string>, user: map<string, string>)

  /** A key of the form `user[...]`. */
  predicate IsUserKey(k: string)
  {
    StartsWith(k, "user[") && |k| > 0 && k[|k| - 1] == ']'
  }

  /** The field named inside `user[...]`. */
  function UserKeyField(k: string): (f: string)
    requires IsUserKey(k)
    ensures "user[" + f + "]" == k
  {
    assert k == k[..5] + k[5..|k| - 1] + [k[|k| - 1]];
    k[5..|k| - 1]
  }

  lemma UserKeyFieldOf(f: string)
    ensures IsUserKey("user[" + f + "]") && UserKeyField("user[" + f + "]") == f
  {
    var k := "user[" + f + "]";
    assert k[..5] == "user[";
    assert k[5..|k| - 1] == f;
  }

  /**
   * `str(getattr(user, f, None))`: the column's text, the stored text of the password column,
   * or `None` for any other attribute.
   */
  function CurrentText(u: User, f: string): (r: string)
    ensures f == "password" ==> r == PasswordText(u.password)
    ensures ColumnNamed(f).Some? ==> r == ColumnText(u, ColumnNamed(f).value)
    ensures f != "password" && ColumnNamed(f).None? ==> r == "None"
  {
    if f == "password" then PasswordText(u.password)
    else match ColumnNamed(f)
      case Some(c) => ColumnText(u, c)
      case None => "None"
  }

  /** A `user[password]` of `None` counts as a change for any password set through the hasher. */
  lemma NonePasswordIsAChange(u: User)
    requires !u.password.Stored?
    ensures CurrentText(u, "password") != "None"
  {
  }

  /** One iteration of the parsing loop of `partial_update`. */
  function ParseStep(u: User, d: PatchData, k: string, v: string): PatchData
  {
    if IsUserKey(k) then
      var f := UserKeyField(k);
      if f == "id" then d
      else if CurrentText(u, f) != v then d.(user := d.user[f := v])
      else d
    else if k == "profile_pic" then d.(pic := Some(v))
    else if k == "profile_desc" then d.(desc := Some(v))
    else d
  }

  /** The form data after the loop has processed `items` in order. */
  function ParseItems(u: User, items: seq<(string, string)>): PatchData
  {
    if items == [] then PatchData(None, None, map[])
    else ParseStep(u, ParseItems(u, items[..|items| - 1]), items[|items| - 1].0, items[|items| - 1].1)
  }

  /** The loop of `partial_update`; the nested user part is attached only when some field changed. */
  method ParsePatch(u: User, items: seq<(string, string)>) returns (pic: Option<string>, desc: Option<string>,
                                                                     user: Option<map<string, string>>)
    ensures var d := ParseItems(u, items);
            pic == d.pic && desc == d.desc && user == (if d.user == map[] then None else Some(d.user))
  {
    var d := PatchData(None, None, map[]);
    var i := 0;
    while i < |items|
      invariant 0 <= i <= |items|
      invariant d == ParseItems(u, items[..i])
    {
      assert items[..i + 1][..i] == items[..i];
      var (k, v) := items[i];
      if IsUserKey(k) {
        var f := UserKeyField(k);
        if f != "id" && CurrentText(u, f) != v {
          d := d.(user := d.user[f := v]);
        }
      } else if k == "profile_pic" {
        d := d.(pic := Some(v));
      } else if k == "profile_desc" {
        d := d.(desc := Some(v));
      }
      i := i + 1;
    }
    assert items[..|items|] == items;
    pic, desc := d.pic, d.desc;
    user := if d.user == map[] then None else Some(d.user);
  }

  /** The request's keys are distinct, as those of a parsed form are. */
  predicate DistinctKeys(items: seq<(string, string)>)
  {
    forall i, j :: 0 <= i < j < |items| ==> items[i].0 != items[j].0
  }

  /**
   * A user field is sent exactly when its `user[f]` key is present, `f` is not `id`, and the
   * value's text differs from the current one; the sent value is the request's.
   */
  lemma {:induction false} ParseUserFields(u: User, items: seq<(string, string)>, f: string)
    requires DistinctKeys(items)
    ensures f in ParseItems(u, items).user
            <==> f != "id" && exists i :: 0 <= i < |items| && items[i].0 == "user[" + f + "]" && CurrentText(u, f) != items[i].1
    ensures f in ParseItems(u, items).user ==>
              exists i :: 0 <= i < |items| && items[i].0 == "user[" + f + "]" && ParseItems(u, items).user[f] == items[i].1
  {
    UserKeyFieldOf(f);
    if items != [] {
      var init := items[..|items| - 1];
      var (k, v) := items[|items| - 1];
      assert DistinctKeys(init);
      ParseUserFields(u, init, f);
      var d := ParseItems(u, init);
      if f in ParseItems(u, items).user {
        if f !in d.user || (IsUserKey(k) && UserKeyField(k) == f) {
          assert items[|items| - 1].0 == "user[" + f + "]";
        } else {
          var i :| 0 <= i < |init| && init[i].0 == "user[" + f + "]" && d.user[f] == init[i].1;
          assert items[i] == init[i];
        }
      }
      if f != "id" && exists i :: 0 <= i < |items| && items[i].0 == "user[" + f + "]" && CurrentText(u, f) != items[i].1 {
        var i :| 0 <= i < |items| && items[i].0 == "user[" + f + "]" && CurrentText(u, f) != items[i].1;
        if i < |init| {
          assert init[i] == items[i];
        } else {
          assert UserKeyField(k) == f;
        }
      }
      if f in d.user && !(f in ParseItems(u, items).user) {
        assert false;
      }
    }
  }

  /** The keys the loop reads: `user[...]`, `profile_pic` and `profile_desc`. */
  predicate ReadKey(k: string)
  {
    IsUserKey(k) || k == "profile_pic" || k == "profile_desc"
  }

  /** A request whose keys the loop does not read yields nothing to update. */
  lemma {:induction false} ParseIgnoresOtherKeys(u: User, items: seq<(string, string)>)
    requires forall i :: 0 <= i < |items| ==> !ReadKey(items[i].0)
    ensures ParseItems(u, items) == PatchData(None, None, map[])
  {
    if items != [] {
      ParseIgnoresOtherKeys(u, items[..|items| - 1]);
    }
  }

  /** A field resent with its current text is not sent on. */
  lemma ParseDropsUnchanged(u: User, items: seq<(string, string)>, c: UserColumn)
    requires DistinctKeys(items)
    requires forall i :: 0 <= i < |items| && items[i].0 == "user[" + ColumnName(c) + "]" ==> items[i].1 == ColumnText(u, c)
    ensures ColumnName(c) !in ParseItems(u, items).user
  {
    ParseUserFields(u, items, ColumnName(c));
    ColumnNamesRoundTrip(c);
  }

  // ---------------------------------------------------------------- PATCH and DELETE

  datatype PatchResponse = PatchNotFound | PatchInvalid(errors: ProfileErrors) | PatchOk

  /**
   * `StudentRUView.partial_update`: 404 for an unknown student; the parsed form is validated
   * against the student's user, a 400 changes nothing, and a valid form is applied.
   */
  method PartialUpdate(db: Directory, sid: nat, items: seq<(string, string)>) returns (r: PatchResponse)
    requires db.Valid()
    modifies db
    ensures db.Valid()
    ensures r.PatchNotFound? <==> sid !in old(db.students)
    ensures !r.PatchOk? ==> db.users == old(db.users) && db.students == old(db.students)
    ensures r.PatchOk? ==>
              var uid := old(db.students[sid].user);
              var d := ParseItems(old(db.users[uid]), items);
              var v := ValidateProfile(old(db.users), uid, d.pic, d.desc, if d.user == map[] then None else Some(d.user));
              && v.Ok?
              && db.users == old(db.users)[uid := WithProfileFields(old(db.users[uid]), v.value.user)]
              && db.students == old(db.students)[sid := old(db.students[sid]).(
                   profilePic := GetOr(v.value.pic, old(db.students[sid].profilePic)),
                   profileDesc := if v.value.desc.Some? then v.value.desc else old(db.students[sid].profileDesc))]
    ensures r.PatchInvalid? ==>
              var uid := old(db.students[sid].user);
              var d := ParseItems(old(db.users[uid]), items);
              ValidateProfile(old(db.users), uid, d.pic, d.desc, if d.user == map[] then None else Some(d.user)).Err?
  {
    if sid !in db.students {
      return PatchNotFound;
    }
    var uid := db.students[sid].user;
    var pic, desc, user := ParsePatch(db.users[uid], items);
    var v := ValidateProfile(db.users, uid, pic, desc, user);
    if v.Err? {
      return PatchInvalid(v.error);
    }
    ProfileChangeSavable(db.users, uid, user, v.value);
    ProfileUpdate(db, sid, v.value);
    r := PatchOk;
  }

  /** A validated change satisfies what the profile update needs. */
  lemma ProfileChangeSavable(users: map<nat, User>, uid: nat, user: Option<map<string, string>>, change: ProfileChange)
    requires user.Some? ==> CleanProfileUser(users, uid, user.value).Ok?
    requires change.user == (if user.Some? then ProfileFields(user.value) else map[])
    ensures change.user.Keys <= ProfileColumns
    ensures forall c :: c in change.user && c in {Email, Username} ==> !HeldByOther(users, c, change.user[c], Some(uid))
  {
    forall c | c in change.user && c in {Email, Username}
      ensures !HeldByOther(users, c, change.user[c], Some(uid))
    {
      assert ProfileFieldError(users, uid, c, change.user[c]).None?;
    }
  }

  /** `StudentRUView.destroy`: 404 for an unknown student, else the student and its user are deleted, 204. */
  method Destroy(db: Directory, sid: nat) returns (code: nat)
    requires db.Valid()
    modifies db
    ensures db.Valid()
    ensures code == (if sid in old(db.students) then 204 else 404)
    ensures sid !in old(db.students) ==> db.users == old(db.users) && db.students == old(db.students)
    ensures sid in old(db.students) ==>
              db.students == old(db.students) - {sid} && db.users == old(db.users) - {old(db.students[sid].user)}
  {
    if sid !in db.students {
      return 404;
    }
    var uid := db.students[sid].user;
    db.DeleteStudent(sid);
    db.DeleteUser(uid);
    code := 204;
  }
}
