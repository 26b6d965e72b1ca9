/**
 * The account serializers: the student form (roll number, club and title rules, creation and
 * full update), the profile form with its self-excluding uniqueness checks, login and the
 * password-reset e-mail check.
 */
module UserSerializers {
  import opened Common
  import opened Text
  import opened Formats
  import opened Accounts
  import opened AuthBackend

  const MsgRequired := "This field is required."
  const MsgBlank := "This field may not be blank."
  const MsgPattern := "This value does not match the required pattern."
  const MsgRollTooLong := "Ensure this field has no more than 20 characters."

  /** `(?:FA|SP)[0-9]{2}-B(?:CS|AI|SE)-[0-9]{3}`, matched in full. */
  predicate IsRollNo(s: string)
  {
    |s| == 12 && (s[..2] == "FA" || s[..2] == "SP") && IsDigit(s[2]) && IsDigit(s[3]) && s[4] == '-'
    && s[5] == 'B' && (s[6..8] == "CS" || s[6..8] == "AI" || s[6..8] == "SE") && s[8] == '-'
    && IsDigit(s[9]) && IsDigit(s[10]) && IsDigit(s[11])
  }

  /**
   * The `roll_no` field: the text is trimmed, a blank value is refused, then both the length
   * and the pattern validators run and every failure is reported.
   */
  function ValidateRollNo(raw: string): (r: Result<string, seq<string>>)
    ensures r.Err? ==> |r.error| > 0
  {
    var t := Trim(raw);
    if t == "" then Err([MsgBlank])
    else
      var errs := (if |t| > 20 then [MsgRollTooLong] else [])
                  + (if AnchoredSearch(IsRollNo, t) then [] else [MsgPattern]);
      if errs == [] then Ok(t) else Err(errs)
  }

  /** A roll number is accepted exactly when its trimmed text matches the pattern in full. */
  lemma RollNoFieldExact(raw: string)
    ensures ValidateRollNo(raw).Ok? <==> IsRollNo(Trim(raw))
    ensures ValidateRollNo(raw).Ok? ==> ValidateRollNo(raw).value == Trim(raw)
  {
    var t := Trim(raw);
    TrimSlice(raw);
    if t != [] && !IsRollNo(t) {
      assert IsSpace(t[|t| - 1]) || t[|t| - 1] != '\n';
    }
  }

  const Clubs: seq<string> := ["codehub", "graphics_and_media", "social_media_and_marketing",
                               "registration_and_decor", "events_and_logistics"]

  /** The `club` choice field: one of the five club slugs, or blank. */
  function ValidateClub(v: string): (r: Result<string, string>)
    ensures r.Ok? <==> v in Clubs || v == ""
    ensures r.Ok? ==> r.value == v
  {
    if v == "" || v in Clubs then Ok(v) else Err("\"" + v + "\" is not a valid choice.")
  }

  const ExecutiveTitles: seq<string> := ["PRESIDENT", "VICE PRESIDENT", "SECRETARY", "TREASURER"]
  const MsgClubRequired := "Club selection is required for non-executive members."

  /** The object-level check: without an executive title the club must be non-empty. */
  function ValidateClubRequirement(title: Option<string>, club: Option<string>): (r: Option<(string, string)>)
    ensures r.Some? ==> r.value == ("club", MsgClubRequired)
  {
    if GetOr(title, "") !in ExecutiveTitles && GetOr(club, "") == "" then Some(("club", MsgClubRequired))
    else None
  }

  /** Executives may leave the club out; everyone else needs one; the title test is case-sensitive. */
  lemma ClubRequirementExact(title: Option<string>, club: Option<string>)
    ensures ValidateClubRequirement(title, club).None?
            <==> (title.Some? && title.value in ExecutiveTitles) || (club.Some? && club.value != "")
    ensures ValidateClubRequirement(Some("president"), None).Some?
  {
    assert "" !in ExecutiveTitles;
    assert "president" !in ExecutiveTitles;
  }

  /** The user row `StudentSerializer.create` builds: the raw password is hashed before storing. */
  function NewUser(username: string, email: string, firstName: string, lastName: string,
                   role: string, phone: string, password: string): (u: User)
    ensures u.password == Hashed(password) && u.isActive && !u.isStaff && !u.isSuperuser
  {
    User(username, email, firstName, lastName, role, phone, Hashed(password), true, false, false)
  }

  /**
   * How `StudentSerializer.create` ends: the new student's id; a clash on a unique user column,
   * refused before anything is stored; or the `TypeError` that `Student.objects.create` raises
   * for the `content` field, which the model has no column for.
   */
  datatype CreateOutcome = Created(sid: nat) | Clash(msg: string) | ContentCrash

  /**
   * `StudentSerializer.create`: the user is created first (its unique columns are checked
   * beforehand and refuse a clash), then the student row is created linked to it from the
   * remaining validated data. The form takes every student column, so a given picture and
   * description are stored; a given `content` reaches the student row's constructor, which
   * raises after the user is already saved.
   */
  method CreateStudent(db: Directory, u: User, rollNo: string, club: string, title: Option<string>,
                       pic: Option<string>, desc: Option<string>, contentGiven: bool)
    returns (r: CreateOutcome)
    requires db.Valid() && u.password.Hashed?
    modifies db
    ensures db.Valid()
    ensures r.Clash? <==> Clashes(old(db.users), u, None)
    ensures r.ContentCrash? <==> !Clashes(old(db.users), u, None) && contentGiven
    ensures r.Clash? ==> db.users == old(db.users) && db.students == old(db.students)
    ensures r.ContentCrash? ==> db.students == old(db.students)
                                && exists uid: nat :: uid !in old(db.users) && db.users == old(db.users)[uid := u]
    ensures r.Created? ==> r.sid !in old(db.students) && r.sid in db.students
                           && db.students[r.sid].user !in old(db.users)
                           && db.users == old(db.users)[db.students[r.sid].user := u]
                           && db.students == old(db.students)[r.sid :=
                                StudentRow(db.students[r.sid].user, rollNo, club, title, GetOr(pic, DefaultProfilePic), desc)]
  {
    var uid := db.InsertUser(u);
    if uid.Err? {
      return Clash(uid.error);
    }
    if contentGiven {
      return ContentCrash;
    }
    var sid := db.InsertStudent(StudentRow(uid.value, rollNo, club, title, GetOr(pic, DefaultProfilePic), desc));
    r := Created(sid);
  }

  /** The user columns the serializers read and write by name. */
  datatype UserColumn = Username | Email | FirstName | LastName | Role | Phone | IsActive | IsStaff | IsSuperuser

  function ColumnName(c: UserColumn): string
  {
    match c
    case Username => "username"
    case Email => "email"
    case FirstName => "first_name"
    case LastName => "last_name"
    case Role => "role"
    case Phone => "phone_number"
    case IsActive => "is_active"
    case IsStaff => "is_staff"
    case IsSuperuser => "is_superuser"
  }

  /** The column an attribute name denotes, if it is one of these columns. */
  function ColumnNamed(f: string): (r: Option<UserColumn>)
    ensures r.Some? ==> ColumnName(r.value) == f
  {
    match f
    case "username" => Some(Username)
    case "email" => Some(Email)
    case "first_name" => Some(FirstName)
    case "last_name" => Some(LastName)
    case "role" => Some(Role)
    case "phone_number" => Some(Phone)
    case "is_active" => Some(IsActive)
    case "is_staff" => Some(IsStaff)
    case "is_superuser" => Some(IsSuperuser)
    case _ => None
  }

  lemma ColumnNamesRoundTrip(c: UserColumn)
    ensures ColumnNamed(ColumnName(c)) == Some(c)
  {
  }

  /** `str(getattr(user, c))` for a column: booleans show as `True` / `False`. */
  function ColumnText(u: User, c: UserColumn): string
  {
    match c
    case Username => u.username
    case Email => u.email
    case FirstName => u.firstName
    case LastName => u.lastName
    case Role => u.role
    case Phone => u.phone
    case IsActive => if u.isActive then "True" else "False"
    case IsStaff => if u.isStaff then "True" else "False"
    case IsSuperuser => if u.isSuperuser then "True" else "False"
  }

  /** `setattr(user, f, v)` with a text value; the password column takes the text as it is. */
  function SetUserColumn(u: User, f: string, v: string): (r: User)
    ensures f == "password" ==> r == u.(password := Stored(v))
    ensures ColumnNamed(f).Some? && ColumnNamed(f).value in TextColumns ==> ColumnText(r, ColumnNamed(f).value) == v
  {
    match f
    case "username" => u.(username := v)
    case "email" => u.(email := v)
    case "first_name" => u.(firstName := v)
    case "last_name" => u.(lastName := v)
    case "role" => u.(role := v)
    case "phone_number" => u.(phone := v)
    case "password" => u.(password := Stored(v))
    case _ => u
  }

  const TextColumns: set<UserColumn> := {Username, Email, FirstName, LastName, Role, Phone}

  /** `setattr(student, f, v)` on a student column; other names touch no column. */
  function SetStudentColumn(s: StudentRow, f: string, v: string): (r: StudentRow)
    ensures r.user == s.user
  {
    match f
    case "roll_no" => s.(rollNo := v)
    case "club" => s.(club := v)
    case "title" => s.(title := Some(v))
    case "profile_pic" => s.(profilePic := v)
    case "profile_desc" => s.(profileDesc := Some(v))
    case _ => s
  }

  function StudentColumnText(s: StudentRow, f: string): Option<string>
  {
    match f
    case "roll_no" => Some(s.rollNo)
    case "club" => Some(s.club)
    case "title" => s.title
    case "profile_pic" => Some(s.profilePic)
    case "profile_desc" => s.profileDesc
    case _ => None
  }

  /** The student columns after assigning `items` in order. */
  function AssignStudent(s: StudentRow, items: seq<(string, string)>): (r: StudentRow)
    ensures r.user == s.user
  {
    if items == [] then s
    else SetStudentColumn(AssignStudent(s, items[..|items| - 1]), items[|items| - 1].0, items[|items| - 1].1)
  }

  /** One step of the user loop in `StudentSerializer.update`: the password goes through `set_password`. */
  function UpdateUserAttr(u: User, f: string, v: string): (r: User)
    ensures f == "password" ==> r.password == Hashed(v)
    ensures f != "password" ==> r.password == u.password
  {
    if f == "password" then u.(password := MakePassword(Some(v))) else SetUserColumn(u, f, v)
  }

  function AssignUser(u: User, items: seq<(string, string)>): User
  {
    if items == [] then u
    else UpdateUserAttr(AssignUser(u, items[..|items| - 1]), items[|items| - 1].0, items[|items| - 1].1)
  }

  /** A column no item names keeps its value. */
  lemma {:induction false} AssignStudentKeepsUnnamed(s: StudentRow, items: seq<(string, string)>, f: string)
    requires forall i :: 0 <= i < |items| ==> items[i].0 != f
    ensures StudentColumnText(AssignStudent(s, items), f) == StudentColumnText(s, f)
  {
    if items != [] {
      AssignStudentKeepsUnnamed(s, items[..|items| - 1], f);
    }
  }

  /**
   * The password the full update leaves is the old one or the hash of a supplied password:
   * the plain text is never stored.
   */
  lemma {:induction false} AssignUserPassword(u: User, items: seq<(string, string)>)
    ensures var p := AssignUser(u, items).password;
            p == u.password || exists i :: 0 <= i < |items| && items[i].0 == "password" && p == Hashed(items[i].1)
  {
    if items != [] {
      var init := items[..|items| - 1];
      AssignUserPassword(u, init);
      var p := AssignUser(u, init).password;
      if p != u.password {
        var i :| 0 <= i < |init| && init[i].0 == "password" && p == Hashed(init[i].1);
        assert items[i] == init[i];
      }
    }
  }

  /** Some user other than `exclude` already holds value `v` in column `c`. */
  predicate HeldByOther(users: map<nat, User>, c: UserColumn, v: string, exclude: Option<nat>)
  {
    exists o :: o in users && Some(o) != exclude && ColumnText(users[o], c) == v
  }

  /** The columns with a unique constraint. */
  const UniqueColumns: set<UserColumn> := {Email, Username, Phone}

  /**
   * The unique validators of the nested user form inside the student form: they run without
   * an instance, so they compare against every user, the edited one included.
   */
  function NestedUserErrors(users: map<nat, User>, data: map<string, string>): (errs: set<UserColumn>)
    ensures forall c :: c in errs <==> (c in UniqueColumns && ColumnName(c) in data
                                        && HeldByOther(users, c, data[ColumnName(c)], None))
  {
    set c | c in UniqueColumns && ColumnName(c) in data && HeldByOther(users, c, data[ColumnName(c)], None)
  }

  /** A full update that resends a user's own e-mail is refused as a duplicate. */
  lemma FullUpdateRejectsOwnEmail(users: map<nat, User>, uid: nat, data: map<string, string>)
    requires uid in users && "email" in data && data["email"] == users[uid].email
    ensures Email in NestedUserErrors(users, data)
  {
    assert ColumnText(users[uid], Email) == data[ColumnName(Email)];
  }

  /**
   * `StudentSerializer.update`: the student columns are assigned in order; when user data is
   * given the user columns are assigned (the password hashed) and the user saved first; then
   * the student is saved. A user save that clashes aborts before the student is saved.
   */
  method UpdateStudent(db: Directory, sid: nat, studentItems: seq<(string, string)>,
                       userItems: seq<(string, string)>) returns (ok: bool)
    requires db.Valid() && sid in db.students
    modifies db
    ensures db.Valid()
    ensures var uid := old(db.students[sid].user);
            var newUser := AssignUser(old(db.users[uid]), userItems);
            && (ok <==> userItems == [] || !Clashes(old(db.users), newUser, Some(uid)))
            && (ok ==> db.students == old(db.students)[sid := AssignStudent(old(db.students[sid]), studentItems)])
            && (ok ==> db.users == if userItems == [] then old(db.users) else old(db.users)[uid := newUser])
            && (!ok ==> db.users == old(db.users) && db.students == old(db.students))
  {
    var row := db.students[sid];
    var i := 0;
    while i < |studentItems|
      invariant 0 <= i <= |studentItems|
      invariant row == AssignStudent(db.students[sid], studentItems[..i])
    {
      assert studentItems[..i + 1][..i] == studentItems[..i];
      row := SetStudentColumn(row, studentItems[i].0, studentItems[i].1);
      i := i + 1;
    }
    assert studentItems[..|studentItems|] == studentItems;
    var uid := db.students[sid].user;
    if userItems != [] {
      var u := db.users[uid];
      var j := 0;
      while j < |userItems|
        invariant 0 <= j <= |userItems|
        invariant u == AssignUser(db.users[uid], userItems[..j])
      {
        assert userItems[..j + 1][..j] == userItems[..j];
        u := UpdateUserAttr(u, userItems[j].0, userItems[j].1);
        j := j + 1;
      }
      assert userItems[..|userItems|] == userItems;
      ok := db.SaveUser(uid, u);
      if !ok {
        return;
      }
    }
    ok := true;
    db.SaveStudent(sid, row);
  }

  // ---------------------------------------------------------------- profile form

  /** The fields of the profile user form; `id` is read-only and never reaches the update. */
  const ProfileColumns: set<UserColumn> := {FirstName, LastName, Email, Username}
  const MsgEmailTaken := "user with this email already exists."
  const MsgUsernameTaken := "user with this username already exists."
  const MsgDescTooLong := "Ensure this field has no more than 200 characters."

  const MsgInvalidEmail := "Enter a valid email address."
  const MsgNameTooLong := "Ensure this field has no more than 150 characters."
  const NameMaxLength := 150

  /**
   * The error one trimmed profile user field raises on its own, before any lookup: a first or
   * last name over 150 characters (the user model's limit), a blank e-mail or username, and an
   * e-mail that Django's address validator refuses.
   */
  function ProfileFormatError(c: UserColumn, v: string): (r: Option<string>)
    ensures r.None? <==> (c in {FirstName, LastName} ==> |v| <= NameMaxLength)
                         && (c in {Email, Username} ==> v != "")
                         && (c == Email ==> IsEmail(v))
  {
    if c in {FirstName, LastName} then (if |v| > NameMaxLength then Some(MsgNameTooLong) else None)
    else if c !in {Email, Username} then None
    else if v == "" then Some(MsgBlank)
    else if c == Email && !IsEmail(v) then Some(MsgInvalidEmail)
    else None
  }

  /**
   * The error of one trimmed profile user field checked against the edited user: its own
   * error first, then an e-mail or username that another user holds.
   */
  function ProfileFieldError(users: map<nat, User>, self: nat, c: UserColumn, v: string): (r: Option<string>)
    ensures r.None? <==> ProfileFormatError(c, v).None?
                         && (c !in {Email, Username} || !HeldByOther(users, c, v, Some(self)))
    ensures ProfileFormatError(c, v).Some? ==> r == ProfileFormatError(c, v)
  {
    if ProfileFormatError(c, v).Some? then ProfileFormatError(c, v)
    else if c in {Email, Username} && HeldByOther(users, c, v, Some(self)) then
      Some(if c == Email then MsgEmailTaken else MsgUsernameTaken)
    else None
  }

  /** The profile form's fields present in the request, trimmed. */
  function ProfileFields(data: map<string, string>): map<UserColumn, string>
  {
    map c | c in ProfileColumns && ColumnName(c) in data :: Trim(data[ColumnName(c)])
  }

  /** Every kept field passes its own checks. */
  predicate FormatsOk(kept: map<UserColumn, string>)
  {
    forall c :: c in kept ==> ProfileFormatError(c, kept[c]).None?
  }

  /**
   * The nested profile user form checked against the edited user: only its four fields are
   * kept, each trimmed. The form is first validated on its own, and only when every field
   * passes are e-mail and username checked against the other users; the errors reported are
   * those of the stage that failed.
   */
  function CleanProfileUser(users: map<nat, User>, self: nat, data: map<string, string>)
    : (r: Result<map<UserColumn, string>, map<UserColumn, string>>)
    ensures r.Ok? <==> forall c :: c in ProfileFields(data) ==> ProfileFieldError(users, self, c, ProfileFields(data)[c]).None?
    ensures r.Ok? ==> r.value == ProfileFields(data)
    ensures r.Err? ==> r.error != map[]
    ensures r.Err? ==> forall c :: c in r.error <==>
                         c in ProfileFields(data)
                         && (if FormatsOk(ProfileFields(data)) then ProfileFieldError(users, self, c, ProfileFields(data)[c]).Some?
                             else ProfileFormatError(c, ProfileFields(data)[c]).Some?)
    ensures r.Err? ==> forall c :: c in r.error ==> r.error[c] == ProfileFieldError(users, self, c, ProfileFields(data)[c]).value
  {
    var kept := ProfileFields(data);
    if forall c :: c in kept ==> ProfileFieldError(users, self, c, kept[c]).None? then Ok(kept)
    else if FormatsOk(kept) then
      var errs := map c | c in kept && ProfileFieldError(users, self, c, kept[c]).Some?
                    :: ProfileFieldError(users, self, c, kept[c]).value;
      assert errs != map[] by {
        var c :| c in kept && ProfileFieldError(users, self, c, kept[c]).Some?;
        assert c in errs;
      }
      Err(errs)
    else
      var errs := map c | c in kept && ProfileFormatError(c, kept[c]).Some? :: ProfileFormatError(c, kept[c]).value;
      assert errs != map[] by {
        var c :| c in kept && ProfileFormatError(c, kept[c]).Some?;
        assert c in errs;
      }
      Err(errs)
  }

  /**
   * Resending the edited user's own valid e-mail and username (up to surrounding space) passes
   * the check, alongside any names that fit 150 characters.
   */
  lemma ProfileOwnValuesPass(users: map<nat, User>, self: nat, data: map<string, string>)
    requires UsersUnique(users) && self in users
    requires "email" in data ==> Trim(data["email"]) == users[self].email != "" && IsEmail(users[self].email)
    requires "username" in data ==> Trim(data["username"]) == users[self].username != ""
    requires "first_name" in data ==> |Trim(data["first_name"])| <= NameMaxLength
    requires "last_name" in data ==> |Trim(data["last_name"])| <= NameMaxLength
    ensures CleanProfileUser(users, self, data).Ok?
  {
    var kept := ProfileFields(data);
    forall c | c in kept
      ensures ProfileFieldError(users, self, c, kept[c]).None?
    {
      OwnFieldPasses(users, self, c, Trim(data[ColumnName(c)]));
    }
  }

  /** One field of the resent own values passes. */
  lemma OwnFieldPasses(users: map<nat, User>, self: nat, c: UserColumn, v: string)
    requires UsersUnique(users) && self in users && c in ProfileColumns
    requires c == Email ==> v == users[self].email != "" && IsEmail(users[self].email)
    requires c == Username ==> v == users[self].username != ""
    requires c == FirstName || c == LastName ==> |v| <= NameMaxLength
    ensures ProfileFieldError(users, self, c, v).None?
  {
    if c == Email || c == Username {
      OwnValueNotHeld(users, self, c);
    }
  }

  /** Under unique users nobody else holds the edited user's own e-mail or username. */
  lemma OwnValueNotHeld(users: map<nat, User>, self: nat, c: UserColumn)
    requires UsersUnique(users) && self in users && (c == Email || c == Username)
    ensures !HeldByOther(users, c, ColumnText(users[self], c), Some(self))
  {
    forall o | o in users && Some(o) != Some(self)
      ensures ColumnText(users[o], c) != ColumnText(users[self], c)
    {
      assert o != self;
    }
  }

  /** An e-mail that some other user holds is refused. */
  lemma ProfileOtherEmailFails(users: map<nat, User>, self: nat, other: nat, data: map<string, string>)
    requires other in users && other != self && "email" in data && Trim(data["email"]) == users[other].email
    requires users[other].email != ""
    ensures CleanProfileUser(users, self, data).Err?
  {
    var kept := ProfileFields(data);
    assert ColumnName(Email) in data;
    assert ColumnText(users[other], Email) == kept[Email];
  }

  /** The validated profile form: optional picture and description, and the cleaned user fields. */
  datatype ProfileChange = ProfileChange(pic: Option<string>, desc: Option<string>, user: map<UserColumn, string>)

  /** Validation errors, nested as the form nests them. */
  datatype ProfileErrors = ProfileErrors(desc: Option<string>, user: map<UserColumn, string>)

  /**
   * `ProfileUpdateSerializer` validation: the description is trimmed and at most 200
   * characters; user fields go through the self-excluding check.
   */
  function ValidateProfile(users: map<nat, User>, self: nat, pic: Option<string>, desc: Option<string>,
                           user: Option<map<string, string>>): (r: Result<ProfileChange, ProfileErrors>)
    ensures r.Ok? <==> (desc.None? || |Trim(desc.value)| <= 200)
                       && (user.None? || CleanProfileUser(users, self, user.value).Ok?)
    ensures r.Ok? ==> r.value.pic == pic && r.value.desc == (if desc.Some? then Some(Trim(desc.value)) else None)
                      && r.value.user == (if user.Some? then ProfileFields(user.value) else map[])
    ensures r.Err? ==> r.error.desc.Some? || r.error.user != map[]
  {
    var descErr := if desc.Some? && |Trim(desc.value)| > 200 then Some(MsgDescTooLong) else None;
    var userResult := if user.Some? then CleanProfileUser(users, self, user.value) else Ok(map[]);
    if descErr.None? && userResult.Ok? then
      Ok(ProfileChange(pic, if desc.Some? then Some(Trim(desc.value)) else None, userResult.value))
    else
      Err(ProfileErrors(descErr, if userResult.Err? then userResult.error else map[]))
  }

  /** The user after the profile loop: each supplied profile field is assigned. */
  function WithProfileFields(u: User, fields: map<UserColumn, string>): (r: User)
    ensures r.password == u.password && r.role == u.role && r.phone == u.phone
    ensures r.isActive == u.isActive && r.isStaff == u.isStaff && r.isSuperuser == u.isSuperuser
    ensures forall c :: c in fields && c in ProfileColumns ==> ColumnText(r, c) == fields[c]
  {
    u.(username := if Username in fields then fields[Username] else u.username,
       email := if Email in fields then fields[Email] else u.email,
       firstName := if FirstName in fields then fields[FirstName] else u.firstName,
       lastName := if LastName in fields then fields[LastName] else u.lastName)
  }

  /** One assignment of the profile loop. */
  function SetProfileColumn(u: User, c: UserColumn, v: string): User
    requires c in ProfileColumns
  {
    match c
    case Username => u.(username := v)
    case Email => u.(email := v)
    case FirstName => u.(firstName := v)
    case LastName => u.(lastName := v)
  }

  /** The loop over the profile user fields, each assigned with `setattr`. */
  method AssignProfileFields(u0: User, fields: map<UserColumn, string>) returns (u: User)
    requires fields.Keys <= ProfileColumns
    ensures u == WithProfileFields(u0, fields)
  {
    u := u0;
    var pending := fields.Keys;
    ghost var done: map<UserColumn, string> := map[];
    while pending != {}
      invariant pending <= fields.Keys
      invariant done.Keys == fields.Keys - pending
      invariant forall c :: c in done ==> done[c] == fields[c]
      invariant u == WithProfileFields(u0, done)
      decreases pending
    {
      var c :| c in pending;
      u := SetProfileColumn(u, c, fields[c]);
      pending := pending - {c};
      done := done[c := fields[c]];
    }
    assert done == fields;
  }

  /**
   * `ProfileUpdateSerializer.update`: the picture and description are written when present,
   * the user fields when any were given, and both rows are saved.
   */
  method ProfileUpdate(db: Directory, sid: nat, change: ProfileChange)
    requires db.Valid() && sid in db.students
    requires change.user.Keys <= ProfileColumns
    requires var self := db.students[sid].user;
             forall c :: c in change.user && c in {Email, Username}
               ==> !HeldByOther(db.users, c, change.user[c], Some(self))
    modifies db
    ensures db.Valid()
    ensures var old_row := old(db.students[sid]);
            db.students == old(db.students)[sid := old_row.(
              profilePic := GetOr(change.pic, old_row.profilePic),
              profileDesc := if change.desc.Some? then change.desc else old_row.profileDesc)]
    ensures var uid := old(db.students[sid].user);
            db.users == old(db.users)[uid := WithProfileFields(old(db.users[uid]), change.user)]
  {
    var row := db.students[sid];
    if change.pic.Some? {
      row := row.(profilePic := change.pic.value);
    }
    if change.desc.Some? {
      row := row.(profileDesc := change.desc);
    }
    var uid := row.user;
    var u := db.users[uid];
    if change.user != map[] {
      u := AssignProfileFields(u, change.user);
      ProfileSaveNoClash(db.users, uid, u, change.user);
      var saved := db.SaveUser(uid, u);
    } else {
      assert WithProfileFields(u, change.user) == u;
      assert db.users[uid := u] == db.users;
    }
    db.SaveStudent(sid, row);
  }

  /** Fields that passed the self-excluding check can be saved without a unique-column clash. */
  lemma ProfileSaveNoClash(users: map<nat, User>, uid: nat, u: User, fields: map<UserColumn, string>)
    requires UsersUnique(users) && uid in users && fields.Keys <= ProfileColumns
    requires u == WithProfileFields(users[uid], fields)
    requires forall c :: c in fields && c in {Email, Username} ==> !HeldByOther(users, c, fields[c], Some(uid))
    ensures !Clashes(users, u, Some(uid))
  {
  }

  // ---------------------------------------------------------------- login

  const MsgMustInclude := "Must include 'username' and 'password'."
  const MsgBadCredentials := "Unable to log in with provided credentials."
  const MsgDisabled := "User account is disabled."

  datatype LoginOutcome =
    | LoggedIn(uid: nat)
    | FieldErrors(errors: map<string, string>)
    | Refused(message: string)
    | ServerError

  /** A required text field: missing, blank after trimming, or the trimmed text. */
  function RequiredText(v: Option<string>): (r: Result<string, string>)
    ensures r.Ok? <==> v.Some? && Trim(v.value) != ""
    ensures r.Ok? ==> r.value == Trim(v.value)
  {
    if v.None? then Err(MsgRequired)
    else if Trim(v.value) == "" then Err(MsgBlank)
    else Ok(Trim(v.value))
  }

  /** `LoginSerializer.validate` on the cleaned fields. */
  function CheckCredentials(users: map<nat, User>, students: map<nat, StudentRow>, name: string, pass: string)
    : (r: LoginOutcome)
    ensures !r.FieldErrors?
  {
    if name != "" && pass != "" then
      match Authenticate(users, students, name, Some(pass))
      case Authenticated(uid) => if users[uid].isActive then LoggedIn(uid) else Refused(MsgDisabled)
      case NoUser => Refused(MsgBadCredentials)
      case MultipleMatches => ServerError
    else Refused(MsgMustInclude)
  }

  /**
   * `LoginSerializer`: both fields are required and trimmed before the object-level check
   * authenticates them.
   */
  function Login(users: map<nat, User>, students: map<nat, StudentRow>,
                 username: Option<string>, password: Option<string>): (r: LoginOutcome)
    ensures r.FieldErrors? ==> ("username" in r.errors || "password" in r.errors)
                               && r.errors.Keys <= {"username", "password"}
  {
    var name := RequiredText(username);
    var pass := RequiredText(password);
    if name.Err? || pass.Err? then
      FieldErrors((if name.Err? then map["username" := name.error] else map[])
                  + (if pass.Err? then map["password" := pass.error] else map[]))
    else CheckCredentials(users, students, name.value, pass.value)
  }

  /** The credential check admits exactly an active user matched alone whose password is `pass`. */
  lemma CheckCredentialsExact(users: map<nat, User>, students: map<nat, StudentRow>, name: string, pass: string, uid: nat)
    requires name != "" && pass != ""
    ensures CheckCredentials(users, students, name, pass) == LoggedIn(uid)
            <==> Matching(users, students, name) == {uid} && users[uid].password == Hashed(pass) && users[uid].isActive
    ensures CheckCredentials(users, students, name, pass) != Refused(MsgMustInclude)
  {
    if Matching(users, students, name) == {uid} {
      AuthenticateSingleMatch(users, students, name, uid, pass);
    }
  }

  /**
   * Login succeeds exactly for an active user matched by the trimmed identifier whose password
   * is the trimmed password; the "Must include" refusal is never reached, since the fields
   * already refuse missing or blank values.
   */
  lemma LoginExact(users: map<nat, User>, students: map<nat, StudentRow>,
                   username: Option<string>, password: Option<string>, uid: nat)
    ensures Login(users, students, username, password) == LoggedIn(uid)
            <==> username.Some? && password.Some? && Trim(username.value) != "" && Trim(password.value) != ""
                 && Matching(users, students, Trim(username.value)) == {uid}
                 && users[uid].password == Hashed(Trim(password.value)) && users[uid].isActive
    ensures Login(users, students, username, password) != Refused(MsgMustInclude)
  {
    var name := RequiredText(username);
    var pass := RequiredText(password);
    if name.Ok? && pass.Ok? {
      assert Login(users, students, username, password) == CheckCredentials(users, students, name.value, pass.value);
      CheckCredentialsExact(users, students, name.value, pass.value, uid);
    } else {
      assert Login(users, students, username, password).FieldErrors?;
    }
  }

  /** A correct password for a disabled account is refused with its own message. */
  lemma DisabledAccountRefused(users: map<nat, User>, students: map<nat, StudentRow>, uid: nat, name: string, pass: string)
    requires name != "" && pass != "" && Matching(users, students, name) == {uid}
    requires users[uid].password == Hashed(pass) && !users[uid].isActive
    ensures CheckCredentials(users, students, name, pass) == Refused(MsgDisabled)
  {
    AuthenticateSingleMatch(users, students, name, uid, pass);
  }

  // ---------------------------------------------------------------- password reset

  const MsgNoSuchEmail := "User with this email does not exist."

  /**
   * `OTPSerializer.validate_email`: the trimmed address must be present, be a valid address,
   * and belong to some user.
   */
  function ValidateOtpEmail(users: map<nat, User>, email: Option<string>): (r: Result<string, (string, string)>)
    ensures r.Ok? <==> email.Some? && Trim(email.value) != "" && IsEmail(Trim(email.value))
                       && exists uid :: uid in users && users[uid].email == Trim(email.value)
    ensures r.Ok? ==> r.value == Trim(email.value)
    ensures email.Some? && Trim(email.value) != "" && !IsEmail(Trim(email.value)) ==> r == Err(("email", MsgInvalidEmail))
  {
    match RequiredText(email)
    case Err(msg) => Err(("email", msg))
    case Ok(e) =>
      if !IsEmail(e) then Err(("email", MsgInvalidEmail))
      else if exists uid :: uid in users && users[uid].email == e then Ok(e) else Err(("email", MsgNoSuchEmail))
  }

  /** A word with no `@` is refused as not an address, before any lookup. */
  lemma OtpWordRefused(users: map<nat, User>, word: string)
    requires word != "" && '@' !in word && !IsSpace(word[0]) && !IsSpace(word[|word| - 1])
    ensures ValidateOtpEmail(users, Some(word)) == Err(("email", MsgInvalidEmail))
  {
    TrimUnchanged(word);
    EmailNeedsAt(word);
  }
}
