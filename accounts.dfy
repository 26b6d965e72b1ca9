/**
 * The account tables: users with their role, unique email, username and phone number and a
 * stored password, and students, each tied one-to-one to a user and deleted with it.
 */
module Accounts {
  import opened Common
  import opened Text
  import opened Formats

  const RoleStudent := "STUDENT"
  const RoleLead := "LEAD"
  const RoleAdmin := "ADMIN"

  predicate IsUserRole(v: string)
  {
    v == RoleStudent || v == RoleLead || v == RoleAdmin
  }

  /**
   * What the password column holds: no usable password, the hash of a raw password
   * (hashing is an opaque one-to-one function here), or text written straight into the column.
   */
  datatype Password = Unusable | Hashed(raw: string) | Stored(text: string)

  /** `make_password` / `set_password`; `None` gives an unusable password. */
  function MakePassword(raw: Option<string>): (p: Password)
    ensures raw.None? <==> p == Unusable
    ensures !p.Stored?
  {
    if raw.None? then Unusable else Hashed(raw.value)
  }

  /**
   * The text of the password column: an unusable password starts with `!` and a hashed one with
   * the hasher's name; the salt and the digest are not modelled.
   */
  function PasswordText(p: Password): (t: string)
    ensures p.Stored? ==> t == p.text
    ensures !p.Stored? ==> t != "" && t != "None"
  {
    match p
    case Unusable => "!"
    case Hashed(raw) => "pbkdf2_sha256$" + raw
    case Stored(text) => text
  }

  /** `check_password`: true only for the raw password whose hash is stored. */
  predicate CheckPassword(raw: string, p: Password)
  {
    p == Hashed(raw)
  }

  lemma CheckPasswordExact(raw: string, other: string)
    ensures CheckPassword(raw, MakePassword(Some(raw)))
    ensures other != raw ==> !CheckPassword(other, MakePassword(Some(raw)))
    ensures !CheckPassword(raw, MakePassword(None))
  {
  }

  datatype User = User(
    username: string,
    email: string,
    firstName: string,
    lastName: string,
    role: string,
    phone: string,
    password: Password,
    isActive: bool,
    isStaff: bool,
    isSuperuser: bool)

  /** `User.phone_number`: the regex `\+92[0-9]{10}$` (anchored only at the end) and a maximum length of 13. */
  predicate UserPhoneValid(phone: string)
  {
    |phone| <= 13 && EndAnchoredSearch(IsPkPhone, phone)
  }

  /** The length bound leaves room for no prefix and no final newline: the whole value is the number. */
  lemma UserPhoneExact(phone: string)
    ensures UserPhoneValid(phone) <==> IsPkPhone(phone)
  {
    if IsPkPhone(phone) {
      assert phone[0..] == phone;
    }
    if |phone| <= 13 && SomeSuffix(IsPkPhone, phone) {
      var i :| 0 <= i <= |phone| && IsPkPhone(phone[i..]);
      assert i == 0;
    }
  }

  datatype StudentRow = StudentRow(
    user: nat,
    rollNo: string,
    club: string,
    title: Option<string>,
    profilePic: string,
    profileDesc: Option<string>)

  const DefaultRollNo := ""
  const DefaultProfilePic := "profile_pics/default.jpg"

  /** The column bounds of a student row. */
  predicate StudentColumnsValid(s: StudentRow)
  {
    |s.rollNo| <= 20 && |s.club| <= 50
    && (s.title.None? || |s.title.value| <= 30)
    && (s.profileDesc.None? || |s.profileDesc.value| <= 200)
  }

  /** A new student row gets the default roll number and picture, and no title or description. */
  function NewStudentRow(user: nat, club: string): (s: StudentRow)
    requires |club| <= 50
    ensures StudentColumnsValid(s) && s.user == user && s.club == club
    ensures s.rollNo == "" && s.title.None? && s.profilePic == DefaultProfilePic && s.profileDesc.None?
  {
    StudentRow(user, DefaultRollNo, club, None, DefaultProfilePic, None)
  }

  /** No two users share a username, an email or a phone number. */
  predicate UsersUnique(users: map<nat, User>)
  {
    forall a, b :: a in users && b in users && a != b ==>
      users[a].username != users[b].username && users[a].email != users[b].email
      && users[a].phone != users[b].phone
  }

  /** Some user other than `exclude` already holds `u`'s username, email or phone number. */
  predicate Clashes(users: map<nat, User>, u: User, exclude: Option<nat>)
  {
    exists other :: other in users && Some(other) != exclude
      && (users[other].username == u.username || users[other].email == u.email || users[other].phone == u.phone)
  }

  /** Writing a user that clashes with nobody keeps the table unique. */
  lemma WriteKeepsUnique(users: map<nat, User>, id: nat, u: User)
    requires UsersUnique(users) && !Clashes(users, u, Some(id))
    ensures UsersUnique(users[id := u])
  {
  }

  /** Each user has at most one student row (the one-to-one link). */
  predicate OneStudentPerUser(students: map<nat, StudentRow>)
  {
    forall s, t :: s in students && t in students && s != t ==> students[s].user != students[t].user
  }

  /** The student row of user `uid` in `students`, if it has one. */
  function StudentIn(students: map<nat, StudentRow>, uid: nat): (r: Option<nat>)
    requires OneStudentPerUser(students)
    ensures r.Some? ==> r.value in students && students[r.value].user == uid
    ensures r.None? ==> forall s :: s in students ==> students[s].user != uid
  {
    if exists s :: s in students && students[s].user == uid then
      var s :| s in students && students[s].user == uid; Some(s)
    else None
  }

  /** The user and student tables with their identity counters. */
  /** Dropping a user and every student row that refers to it keeps the tables consistent. */
  lemma DeleteKeepsValid(users: map<nat, User>, students: map<nat, StudentRow>, uid: nat,
                         users': map<nat, User>, students': map<nat, StudentRow>)
    requires UsersUnique(users) && OneStudentPerUser(students)
    requires forall s :: s in students ==> students[s].user in users
    requires users' == users - {uid}
    requires students' == map s | s in students && students[s].user != uid :: students[s]
    ensures UsersUnique(users') && OneStudentPerUser(students')
    ensures forall s :: s in students' ==> s in students && students'[s].user in users'
  {
    forall a, b | a in users' && b in users' && a != b
      ensures users'[a].username != users'[b].username && users'[a].email != users'[b].email
              && users'[a].phone != users'[b].phone
    {
      assert a in users && b in users;
    }
    forall s, t | s in students' && t in students' && s != t
      ensures students'[s].user != students'[t].user
    {
      assert students'[s] == students[s] && students'[t] == students[t];
    }
  }

  class Directory {
    var users: map<nat, User>
    var students: map<nat, StudentRow>
    var nextUser: nat
    var nextStudent: nat

    ghost predicate Valid()
      reads this
    {
      UsersUnique(users)
      && (forall u :: u in users ==> u < nextUser)
      && (forall s :: s in students ==> s < nextStudent && students[s].user in users)
      && OneStudentPerUser(students)
    }

    constructor ()
      ensures Valid() && users == map[] && students == map[]
    {
      users := map[];
      students := map[];
      nextUser := 0;
      nextStudent := 0;
    }

    /** The student row of a user, if it has one. */
    function StudentOf(uid: nat): (r: Option<nat>)
      reads this
      requires Valid()
      ensures r.Some? ==> r.value in students && students[r.value].user == uid
      ensures r.None? ==> forall s :: s in students ==> students[s].user != uid
    {
      StudentIn(students, uid)
    }

    /** Inserts a user; the unique columns are enforced by the database. */
    method InsertUser(u: User) returns (r: Result<nat, string>)
      requires Valid()
      modifies this
      ensures Valid()
      ensures r.Err? <==> Clashes(old(users), u, None)
      ensures r.Err? ==> users == old(users)
      ensures r.Ok? ==> r.value !in old(users) && users == old(users)[r.value := u]
      ensures students == old(students)
    {
      if Clashes(users, u, None) {
        return Err("IntegrityError");
      }
      var id := nextUser;
      users := users[id := u];
      nextUser := nextUser + 1;
      r := Ok(id);
    }

    /** Inserts the student row of a user that has none yet. */
    method InsertStudent(s: StudentRow) returns (id: nat)
      requires Valid() && s.user in users
      requires forall t :: t in students ==> students[t].user != s.user
      modifies this
      ensures Valid()
      ensures id !in old(students) && students == old(students)[id := s]
      ensures users == old(users)
    {
      id := nextStudent;
      students := students[id := s];
      nextStudent := nextStudent + 1;
    }

    /** Writes back a changed user (`user.save()`); the unique columns are enforced. */
    method SaveUser(id: nat, u: User) returns (ok: bool)
      requires Valid() && id in users
      modifies this
      ensures Valid()
      ensures ok <==> !Clashes(old(users), u, Some(id))
      ensures users == if ok then old(users)[id := u] else old(users)
      ensures students == old(students)
    {
      ok := !Clashes(users, u, Some(id));
      if ok {
        WriteKeepsUnique(users, id, u);
        users := users[id := u];
      }
    }

    /** Writes back a changed student row (`student.save()`); the owning user stays the same. */
    method SaveStudent(sid: nat, row: StudentRow)
      requires Valid() && sid in students && row.user == students[sid].user
      modifies this
      ensures Valid()
      ensures students == old(students)[sid := row] && users == old(users)
    {
      students := students[sid := row];
    }

    /** Deletes a student row; its user stays. */
    method DeleteStudent(sid: nat)
      requires Valid()
      modifies this
      ensures Valid()
      ensures students == old(students) - {sid} && users == old(users)
    {
      students := students - {sid};
    }

    /** Deletes a user; its student row goes with it (`on_delete=CASCADE`). */
    method DeleteUser(uid: nat)
      requires Valid()
      modifies this
      ensures Valid()
      ensures users == old(users) - {uid}
      ensures students == map s | s in old(students) && old(students)[s].user != uid :: old(students)[s]
      ensures forall s :: s in students ==> students[s].user != uid
    {
      ghost var users0, students0 := users, students;
      students := map s | s in students && students[s].user != uid :: students[s];
      users := users - {uid};
      DeleteKeepsValid(users0, students0, uid, users, students);
    }
  }
}
