/**
 * The edit-member dialog: form edits, the change set sent to the server (only what differs
 * from the loaded member, with the user's id added when a user field is sent) and its
 * flattening into `user.<field>` form-data keys.
 */
module EditMemberModal {
  import opened Common
  import opened Text
  import opened Formats

  /** The user fields the dialog edits, in the order it examines them. */
  datatype UserField = FirstName | LastName | Email | Username | Password | Role | PhoneNumber

  const UserFields: seq<UserField> := [FirstName, LastName, Email, Username, Password, Role, PhoneNumber]

  /** The request key of a user field. */
  function Key(f: UserField): (k: string)
    ensures k != "id" && k != ""
  {
    match f
    case FirstName => "first_name"
    case LastName => "last_name"
    case Email => "email"
    case Username => "username"
    case Password => "password"
    case Role => "role"
    case PhoneNumber => "phone_number"
  }

  lemma KeyInjective(f: UserField, g: UserField)
    ensures Key(f) == Key(g) <==> f == g
  {
  }

  /** The user part of the form: one text per field. */
  datatype UserForm = UserForm(firstName: string, lastName: string, email: string, username: string,
                               password: string, role: string, phone: string)

  function Get(u: UserForm, f: UserField): string
  {
    match f
    case FirstName => u.firstName
    case LastName => u.lastName
    case Email => u.email
    case Username => u.username
    case Password => u.password
    case Role => u.role
    case PhoneNumber => u.phone
  }

  function Set(u: UserForm, f: UserField, v: string): (r: UserForm)
    ensures Get(r, f) == v
    ensures forall g :: g != f ==> Get(r, g) == Get(u, g)
  {
    match f
    case FirstName => u.(firstName := v)
    case LastName => u.(lastName := v)
    case Email => u.(email := v)
    case Username => u.(username := v)
    case Password => u.(password := v)
    case Role => u.(role := v)
    case PhoneNumber => u.(phone := v)
  }

  /** The dialog's form. */
  datatype Form = Form(rollNo: string, club: string, title: string, user: UserForm)

  /**
   * The member as loaded: `None` stands for a null field, and a user field missing from
   * `user` is null or absent.
   */
  datatype Member = Member(id: nat, rollNo: Option<string>, club: Option<string>, title: Option<string>,
                           userId: nat, user: map<UserField, string>)

  /** The inputs of the dialog. */
  datatype Input = RollNoInput | ClubInput | TitleInput | UserInput(field: UserField)

  /** `handleChange`: the title is upper-cased; every input changes only its own value. */
  function Change(form: Form, input: Input, value: string): (r: Form)
    ensures input == TitleInput ==> r == form.(title := Upper(value))
    ensures input == RollNoInput ==> r == form.(rollNo := value)
    ensures input == ClubInput ==> r == form.(club := value)
    ensures input.UserInput? ==> r == form.(user := Set(form.user, input.field, value))
  {
    match input
    case TitleInput => form.(title := Upper(value))
    case RollNoInput => form.(rollNo := value)
    case ClubInput => form.(club := value)
    case UserInput(f) => form.(user := Set(form.user, f, value))
  }

  // ---------------------------------------------------------------- the change set

  /** Whether user field `f` is sent: the password when it is not blank, any other field when it differs. */
  predicate Sent(form: Form, m: Member, f: UserField)
  {
    if f == Password then Trim(form.user.password) != ""
    else !(f in m.user && m.user[f] == Get(form.user, f))
  }

  /** The user entries the loop over `fields` collects, in order. */
  function UserChanges(form: Form, m: Member, fields: seq<UserField>): seq<(string, string)>
  {
    if fields == [] then []
    else
      var f := fields[|fields| - 1];
      UserChanges(form, m, fields[..|fields| - 1]) + (if Sent(form, m, f) then [(Key(f), Get(form.user, f))] else [])
  }

  /** An entry is collected exactly for each sent field, with the form's value. */
  lemma UserChangesExact(form: Form, m: Member, fields: seq<UserField>, k: string, v: string)
    ensures (k, v) in UserChanges(form, m, fields) <==>
              exists f :: f in fields && Key(f) == k && Sent(form, m, f) && v == Get(form.user, f)
    ensures UserChanges(form, m, fields) == [] <==> forall f :: f in fields ==> !Sent(form, m, f)
    ensures forall e :: e in UserChanges(form, m, fields) ==> e.0 != "id"
  {
    UserChangesMembers(form, m, fields, k, v);
    UserChangesEmpty(form, m, fields);
    UserChangesNoId(form, m, fields);
  }

  lemma {:induction false} UserChangesMembers(form: Form, m: Member, fields: seq<UserField>, k: string, v: string)
    ensures (k, v) in UserChanges(form, m, fields) <==>
              exists f :: f in fields && Key(f) == k && Sent(form, m, f) && v == Get(form.user, f)
  {
    if fields != [] {
      var init := fields[..|fields| - 1];
      var f := fields[|fields| - 1];
      UserChangesMembers(form, m, init, k, v);
      assert fields == init + [f];
      if (k, v) in UserChanges(form, m, fields) && (k, v) !in UserChanges(form, m, init) {
        assert Key(f) == k && Sent(form, m, f) && v == Get(form.user, f);
      }
      if exists g :: g in fields && Key(g) == k && Sent(form, m, g) && v == Get(form.user, g) {
        var g :| g in fields && Key(g) == k && Sent(form, m, g) && v == Get(form.user, g);
        if g != f {
          assert g in init;
        }
      }
    }
  }

  lemma {:induction false} UserChangesEmpty(form: Form, m: Member, fields: seq<UserField>)
    ensures UserChanges(form, m, fields) == [] <==> forall f :: f in fields ==> !Sent(form, m, f)
  {
    if fields != [] {
      var init := fields[..|fields| - 1];
      var f := fields[|fields| - 1];
      UserChangesEmpty(form, m, init);
      var tail := if Sent(form, m, f) then [(Key(f), Get(form.user, f))] else [];
      assert UserChanges(form, m, fields) == UserChanges(form, m, init) + tail;
      assert forall g :: g in fields <==> g in init || g == f by {
        assert fields == init + [f];
      }
    }
  }

  lemma {:induction false} UserChangesNoId(form: Form, m: Member, fields: seq<UserField>)
    ensures forall e :: e in UserChanges(form, m, fields) ==> e.0 != "id"
  {
    if fields != [] {
      UserChangesNoId(form, m, fields[..|fields| - 1]);
    }
  }

  /** The loop over the user fields. */
  method CollectUserChanges(form: Form, m: Member) returns (entries: seq<(string, string)>)
    ensures entries == UserChanges(form, m, UserFields)
  {
    entries := [];
    var i := 0;
    while i < |UserFields|
      invariant 0 <= i <= |UserFields|
      invariant entries == UserChanges(form, m, UserFields[..i])
    {
      var f := UserFields[i];
      assert UserFields[..i + 1][..i] == UserFields[..i];
      if Sent(form, m, f) {
        entries := entries + [(Key(f), Get(form.user, f))];
      }
      i := i + 1;
    }
    assert UserFields[..|UserFields|] == UserFields;
  }

  /** A value of the change set: a text, null, or the nested user record. */
  datatype Value = Text(s: string) | Null | User(entries: seq<(string, string)>)

  /** An entry of the change set when `cond` holds, nothing otherwise. */
  function Part(cond: bool, key: string, v: Value): (r: seq<(string, Value)>)
    ensures r == [] <==> !cond
  {
    if cond then [(key, v)] else []
  }

  function RollPart(form: Form, m: Member): seq<(string, Value)>
  {
    Part(Some(form.rollNo) != m.rollNo, "roll_no", Text(form.rollNo))
  }

  function ClubPart(form: Form, m: Member): seq<(string, Value)>
  {
    Part(Some(form.club) != m.club, "club", Text(form.club))
  }

  function TitlePart(form: Form, m: Member): seq<(string, Value)>
  {
    Part(form.title != GetOr(m.title, ""), "title", if Trim(form.title) == "" then Null else Text(form.title))
  }

  function UserPart(form: Form, m: Member): seq<(string, Value)>
  {
    UserRecord(UserChanges(form, m, UserFields), m.userId)
  }

  /** The nested user record: the collected entries followed by the user's id, when there are any. */
  function UserRecord(user: seq<(string, string)>, id: nat): seq<(string, Value)>
  {
    Part(user != [], "user", User(user + [("id", NatToString(id))]))
  }

  /** The change set `dataToSend`, in the order its keys are assigned. */
  function DataToSend(form: Form, m: Member): seq<(string, Value)>
  {
    RollPart(form, m) + ClubPart(form, m) + TitlePart(form, m) + UserPart(form, m)
  }

  /** Whether `key` has an entry in `data`, and which value. */
  function Find(data: seq<(string, Value)>, key: string): Option<Value>
  {
    if data == [] then None
    else if data[0].0 == key then Some(data[0].1)
    else Find(data[1..], key)
  }

  lemma {:induction false} FindAppend(a: seq<(string, Value)>, b: seq<(string, Value)>, key: string)
    ensures Find(a + b, key) == if Find(a, key).Some? then Find(a, key) else Find(b, key)
  {
    if a != [] {
      assert (a + b)[1..] == a[1..] + b;
      FindAppend(a[1..], b, key);
    } else {
      assert a + b == b;
    }
  }

  /** The key of every entry of the change set, part by part. */
  lemma PartKeys(form: Form, m: Member)
    ensures forall e :: e in RollPart(form, m) ==> e.0 == "roll_no"
    ensures forall e :: e in ClubPart(form, m) ==> e.0 == "club"
    ensures forall e :: e in TitlePart(form, m) ==> e.0 == "title"
    ensures forall e :: e in UserPart(form, m) ==> e.0 == "user"
  {
  }

  lemma FindMissing(data: seq<(string, Value)>, key: string)
    requires forall e :: e in data ==> e.0 != key
    ensures Find(data, key) == None
  {
  }

  /**
   * `roll_no` and `club` are sent iff they differ from the member (a null value differs from
   * every text); `title` iff it differs with null read as empty, and a blank title is sent as
   * null; the user record iff some user field is sent, and it then ends with the user's id.
   */
  lemma DataToSendExact(form: Form, m: Member)
    ensures Find(DataToSend(form, m), "roll_no") ==
            (if Some(form.rollNo) != m.rollNo then Some(Text(form.rollNo)) else None)
    ensures Find(DataToSend(form, m), "club") ==
            (if Some(form.club) != m.club then Some(Text(form.club)) else None)
    ensures Find(DataToSend(form, m), "title").Some? <==> form.title != GetOr(m.title, "")
    ensures Find(DataToSend(form, m), "title") == Some(Null) <==>
              form.title != GetOr(m.title, "") && Trim(form.title) == ""
    ensures Find(DataToSend(form, m), "user").Some? <==> exists f :: f in UserFields && Sent(form, m, f)
    ensures Find(DataToSend(form, m), "user").Some? ==>
              Find(DataToSend(form, m), "user") ==
              Some(User(UserChanges(form, m, UserFields) + [("id", NatToString(m.userId))]))
    ensures DataToSend(form, m) == [] <==>
              Some(form.rollNo) == m.rollNo && Some(form.club) == m.club && form.title == GetOr(m.title, "")
              && forall f :: f in UserFields ==> !Sent(form, m, f)
  {
    UserChangesEmpty(form, m, UserFields);
    DataToSendRollClub(form, m);
    DataToSendTitle(form, m);
    DataToSendUser(form, m);
    DataToSendEmpty(form, m);
  }

  lemma DataToSendRollClub(form: Form, m: Member)
    ensures Find(DataToSend(form, m), "roll_no") ==
            (if Some(form.rollNo) != m.rollNo then Some(Text(form.rollNo)) else None)
    ensures Find(DataToSend(form, m), "club") ==
            (if Some(form.club) != m.club then Some(Text(form.club)) else None)
  {
    var r, c, t, u := RollPart(form, m), ClubPart(form, m), TitlePart(form, m), UserPart(form, m);
    PartKeys(form, m);
    FindSkip(r, c, t, u, "roll_no", 0);
    FindSkip(r, c, t, u, "club", 1);
  }

  lemma DataToSendTitle(form: Form, m: Member)
    ensures Find(DataToSend(form, m), "title") ==
            if form.title != GetOr(m.title, "") then Some(if Trim(form.title) == "" then Null else Text(form.title)) else None
  {
    var r, c, t, u := RollPart(form, m), ClubPart(form, m), TitlePart(form, m), UserPart(form, m);
    PartKeys(form, m);
    FindSkip(r, c, t, u, "title", 2);
  }

  lemma DataToSendUser(form: Form, m: Member)
    ensures Find(DataToSend(form, m), "user") ==
            if UserChanges(form, m, UserFields) != [] then Some(User(UserChanges(form, m, UserFields) + [("id", NatToString(m.userId))]))
            else None
  {
    var r, c, t, u := RollPart(form, m), ClubPart(form, m), TitlePart(form, m), UserPart(form, m);
    PartKeys(form, m);
    FindSkip(r, c, t, u, "user", 3);
  }

  lemma FindSkip(r: seq<(string, Value)>, c: seq<(string, Value)>, t: seq<(string, Value)>, u: seq<(string, Value)>,
                 key: string, i: nat)
    requires i < 4
    requires i != 0 ==> forall e :: e in r ==> e.0 != key
    requires i != 1 ==> forall e :: e in c ==> e.0 != key
    requires i != 2 ==> forall e :: e in t ==> e.0 != key
    requires i != 3 ==> forall e :: e in u ==> e.0 != key
    ensures Find(r + c + t + u, key) == Find([r, c, t, u][i], key)
  {
    assert r + c + t + u == r + (c + (t + u));
    FindAppend(r, c + (t + u), key);
    FindAppend(c, t + u, key);
    FindAppend(t, u, key);
    if i != 0 { FindMissing(r, key); }
    if i != 1 { FindMissing(c, key); }
    if i != 2 { FindMissing(t, key); }
    if i != 3 { FindMissing(u, key); }
  }

  lemma DataToSendEmpty(form: Form, m: Member)
    ensures DataToSend(form, m) == [] <==>
              Some(form.rollNo) == m.rollNo && Some(form.club) == m.club && form.title == GetOr(m.title, "")
              && UserChanges(form, m, UserFields) == []
  {
  }

  /** A member with a null club or roll number always sends that field, even when it was not edited. */
  lemma NullFieldAlwaysSent(form: Form, m: Member)
    ensures m.club.None? ==> Find(DataToSend(form, m), "club") == Some(Text(form.club))
    ensures m.rollNo.None? ==> Find(DataToSend(form, m), "roll_no") == Some(Text(form.rollNo))
  {
    DataToSendExact(form, m);
  }

  // ---------------------------------------------------------------- form data

  /** The string a form-data value becomes: `null` is sent as the text `null`. */
  function FormText(v: Value): string
  {
    match v
    case Text(s) => s
    case Null => "null"
    case User(_) => "[object Object]"
  }

  function Prefixed(entries: seq<(string, string)>): (r: seq<(string, string)>)
    ensures |r| == |entries|
    ensures forall i :: 0 <= i < |r| ==> r[i] == ("user." + entries[i].0, entries[i].1)
  {
    seq(|entries|, i requires 0 <= i < |entries| => ("user." + entries[i].0, entries[i].1))
  }

  /** The form-data entries `data` becomes: the user record's entries under `user.<key>`. */
  function Flatten(data: seq<(string, Value)>): seq<(string, string)>
  {
    if data == [] then [] else Flatten(data[..|data| - 1]) + FlattenEntry(data[|data| - 1])
  }

  /** One entry of the change set as form data. */
  function FlattenEntry(e: (string, Value)): seq<(string, string)>
  {
    if e.0 == "user" && e.1.User? then Prefixed(e.1.entries) else [(e.0, FormText(e.1))]
  }

  /** The loop appending the change set to the form data. */
  method FlattenLoop(data: seq<(string, Value)>) returns (entries: seq<(string, string)>)
    ensures entries == Flatten(data)
  {
    entries := [];
    var i := 0;
    while i < |data|
      invariant 0 <= i <= |data|
      invariant entries == Flatten(data[..i])
    {
      assert data[..i + 1] == data[..i] + [data[i]];
      FlattenSnoc(data[..i], data[i]);
      var (k, v) := data[i];
      if k == "user" && v.User? {
        entries := AppendUserEntries(entries, v.entries);
      } else {
        entries := entries + [(k, FormText(v))];
      }
      i := i + 1;
    }
    assert data[..|data|] == data;
  }

  /** The inner loop: each entry of the user record is appended under `user.<key>`. */
  method AppendUserEntries(entries: seq<(string, string)>, user: seq<(string, string)>) returns (r: seq<(string, string)>)
    ensures r == entries + Prefixed(user)
  {
    r := entries;
    var j := 0;
    while j < |user|
      invariant 0 <= j <= |user|
      invariant r == entries + Prefixed(user[..j])
    {
      assert Prefixed(user[..j + 1]) == Prefixed(user[..j]) + [("user." + user[j].0, user[j].1)];
      r := r + [("user." + user[j].0, user[j].1)];
      j := j + 1;
    }
    assert user[..|user|] == user;
  }

  /** The outcome of a submit: nothing to send, or a PATCH of the member with these form-data entries. */
  datatype Outcome = NoChanges | Patch(url: string, entries: seq<(string, string)>)

  const MsgNoChanges := "No changes detected!"

  /** `handleSubmit` up to the request. */
  method Submit(form: Form, m: Member) returns (r: Outcome)
    ensures r == SubmitSpec(form, m)
  {
    var roll, club, title, userPart: seq<(string, Value)> := [], [], [], [];
    if Some(form.rollNo) != m.rollNo {
      roll := [("roll_no", Text(form.rollNo))];
    }
    if Some(form.club) != m.club {
      club := [("club", Text(form.club))];
    }
    if form.title != GetOr(m.title, "") {
      title := [("title", if Trim(form.title) == "" then Null else Text(form.title))];
    }
    var user := CollectUserChanges(form, m);
    if |user| > 0 {
      user := user + [("id", NatToString(m.userId))];
      userPart := [("user", User(user))];
    }
    var data := roll + club + title + userPart;
    assert data == DataToSend(form, m) by {
      assert roll == RollPart(form, m) && club == ClubPart(form, m) && title == TitlePart(form, m);
      assert userPart == UserPart(form, m);
    }
    if |data| == 0 {
      return NoChanges;
    }
    var entries := FlattenLoop(data);
    r := Patch("/students/" + NatToString(m.id), entries);
  }

  /**
   * Constraint validation on Save: the roll number and the club drop-down are `required` (its
   * placeholder has the empty value), and the `type="email"` input, which is optional, must hold
   * an address once surrounding white space is stripped, unless that leaves it empty.
   */
  predicate BrowserAccepts(form: Form)
  {
    form.rollNo != "" && form.club != ""
    && (Trim(form.user.email) == "" || IsHtmlEmail(Trim(form.user.email)))
  }

  /** Save pressed: nothing while a save is running or the browser refuses the form, else `handleSubmit`. */
  method Press(form: Form, m: Member, saving: bool) returns (r: Option<Outcome>)
    ensures r.Some? <==> !saving && BrowserAccepts(form)
    ensures r.Some? ==> r.value == SubmitSpec(form, m)
  {
    if saving || !BrowserAccepts(form) {
      return None;
    }
    var o := Submit(form, m);
    r := Some(o);
  }

  /** A form the browser accepts never sends an empty roll number or an empty club. */
  lemma AcceptedNeverClears(form: Form, m: Member)
    requires BrowserAccepts(form)
    ensures Find(DataToSend(form, m), "roll_no") != Some(Text(""))
    ensures Find(DataToSend(form, m), "club") != Some(Text(""))
  {
    DataToSendRollClub(form, m);
  }

  function SubmitSpec(form: Form, m: Member): Outcome
  {
    var data := DataToSend(form, m);
    if data == [] then NoChanges else Patch("/students/" + NatToString(m.id), Flatten(data))
  }

  /**
   * No request is made exactly when nothing changed; every key sent is `roll_no`, `club`,
   * `title` or a flattened `user.<key>`, and `user.id` is among them iff some user field is.
   */
  lemma SubmitExact(form: Form, m: Member)
    ensures SubmitSpec(form, m).NoChanges? <==> DataToSend(form, m) == []
    ensures SubmitSpec(form, m).Patch? ==>
              forall e :: e in SubmitSpec(form, m).entries ==>
                PlainKey(e.0) || StartsWith(e.0, "user.")
    ensures SubmitSpec(form, m).Patch? ==>
              (("user.id", NatToString(m.userId)) in SubmitSpec(form, m).entries <==>
               exists f :: f in UserFields && Sent(form, m, f))
  {
    var a := RollPart(form, m) + ClubPart(form, m) + TitlePart(form, m);
    var u := UserPart(form, m);
    PartKeys(form, m);
    FlattenPlain(a);
    UserChangesExact(form, m, UserFields, "", "");
    FlattenUser(UserChanges(form, m, UserFields), m.userId);
    assert DataToSend(form, m) == a + u;
    FlattenAppend(a, u);
    NoUserId(Flatten(a));
  }

  lemma {:induction false} FlattenAppend(a: seq<(string, Value)>, b: seq<(string, Value)>)
    ensures Flatten(a + b) == Flatten(a) + Flatten(b)
    decreases |b|
  {
    if b == [] {
      assert a + b == a;
    } else {
      var b', last := b[..|b| - 1], b[|b| - 1];
      assert b == b' + [last];
      FlattenAppend(a, b');
      FlattenAppendStep(a, b', last);
    }
  }

  lemma FlattenAppendStep(a: seq<(string, Value)>, b: seq<(string, Value)>, last: (string, Value))
    requires Flatten(a + b) == Flatten(a) + Flatten(b)
    ensures Flatten(a + (b + [last])) == Flatten(a) + Flatten(b + [last])
  {
    SnocAssociative(a, b, last);
    FlattenSnoc(a + b, last);
    Associative(Flatten(a), Flatten(b), FlattenEntry(last));
    FlattenSnoc(b, last);
  }

  lemma SnocAssociative(a: seq<(string, Value)>, b: seq<(string, Value)>, last: (string, Value))
    ensures a + (b + [last]) == (a + b) + [last]
  {
  }

  lemma Associative(x: seq<(string, string)>, y: seq<(string, string)>, z: seq<(string, string)>)
    ensures (x + y) + z == x + (y + z)
  {
  }

  lemma FlattenSnoc(data: seq<(string, Value)>, e: (string, Value))
    ensures Flatten(data + [e]) == Flatten(data) + FlattenEntry(e)
  {
    assert (data + [e])[..|data|] == data;
  }

  lemma NoUserId(entries: seq<(string, string)>)
    requires forall e :: e in entries ==> PlainKey(e.0)
    ensures forall v :: ("user.id", v) !in entries
  {
  }

  /** The user record flattens to `user.<key>` entries, and ends with `user.id` when it exists. */
  lemma FlattenUser(user: seq<(string, string)>, id: nat)
    ensures forall e :: e in Flatten(UserRecord(user, id)) ==> StartsWith(e.0, "user.")
    ensures ("user.id", NatToString(id)) in Flatten(UserRecord(user, id)) <==> user != []
  {
    var r := UserRecord(user, id);
    if user != [] {
      var all := user + [("id", NatToString(id))];
      FlattenSingle("user", User(all));
      PrefixedKeys(all);
      assert "user." + "id" == "user.id";
      assert Prefixed(all)[|all| - 1] == ("user.id", NatToString(id));
    }
  }

  lemma FlattenSingle(k: string, v: Value)
    ensures Flatten([(k, v)]) == if k == "user" && v.User? then Prefixed(v.entries) else [(k, FormText(v))]
  {
    assert [(k, v)][..0] == [];
  }

  lemma PrefixedKeys(entries: seq<(string, string)>)
    ensures forall e :: e in Prefixed(entries) ==> StartsWith(e.0, "user.")
  {
    forall e | e in Prefixed(entries) ensures StartsWith(e.0, "user.") {
      var i :| 0 <= i < |entries| && Prefixed(entries)[i] == e;
      assert e.0 == "user." + entries[i].0;
    }
  }

  /** The keys of the change set other than the user record. */
  predicate PlainKey(k: string)
  {
    k == "roll_no" || k == "club" || k == "title"
  }

  /** Entries without the user record keep their own keys. */
  lemma {:induction false} FlattenPlain(data: seq<(string, Value)>)
    requires forall e :: e in data ==> PlainKey(e.0)
    ensures forall e :: e in Flatten(data) ==> PlainKey(e.0)
  {
    if data != [] {
      assert data[|data| - 1] in data;
      assert forall e :: e in data[..|data| - 1] ==> e in data;
      FlattenPlain(data[..|data| - 1]);
    }
  }
}
