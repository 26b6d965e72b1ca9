/**
 * The custom user manager: `create_user` refuses an empty username or email, normalizes the
 * email, sets the password through the hasher and saves; `create_superuser` fills in default
 * flags and delegates to it.
 */
module UserManager {
  import opened Common
  import opened Text
  import opened Accounts

  /**
   * `normalize_email`: `None` becomes empty; text with an `@` is stripped and its domain, after
   * the last `@`, lower-cased; text without one is returned as given.
   */
  function NormalizeEmail(email: Option<string>): (r: string)
  {
    var e := GetOr(email, "");
    var t := Trim(e);
    match LastIndexOf(t, '@')
    case None => e
    case Some(i) => t[..i] + "@" + Lower(t[i + 1..])
  }

  lemma LowerKeepsNonSpace(c: char)
    requires !IsSpace(c)
    ensures !IsSpace(LowerChar(c)) && (c != '@' ==> LowerChar(c) != '@')
  {
  }

  /** Text already in normal form (no surrounding space, a last `@`, lower-case domain) normalizes to itself. */
  lemma NormalFormFixed(r: string, i: nat)
    requires i < |r| && r[i] == '@' && '@' !in r[i + 1..] && Lower(r[i + 1..]) == r[i + 1..]
    requires !IsSpace(r[0]) && !IsSpace(r[|r| - 1])
    ensures NormalizeEmail(Some(r)) == r
  {
    TrimUnchanged(r);
    LastIndexOfExact(r, '@', i);
    NormalizeEmailAt(r, i);
    Reassemble(r, i, NormalizeEmail(Some(r)));
  }

  lemma Reassemble(r: string, i: nat, n: string)
    requires i < |r| && r[i] == '@' && Lower(r[i + 1..]) == r[i + 1..] && n == r[..i] + "@" + Lower(r[i + 1..])
    ensures n == r
  {
    assert r == r[..i] + "@" + r[i + 1..];
  }

  lemma LastIndexOfExact(s: string, c: char, i: nat)
    requires i < |s| && s[i] == c && c !in s[i + 1..]
    ensures LastIndexOf(s, c) == Some(i)
  {
  }

  lemma NormalizeEmailAt(e: string, i: nat)
    requires Trim(e) == e && LastIndexOf(e, '@') == Some(i)
    ensures NormalizeEmail(Some(e)) == e[..i] + "@" + Lower(e[i + 1..])
  {
  }

  lemma LowerShape(dom: string)
    requires '@' !in dom
    ensures '@' !in Lower(dom)
  {
    forall k | 0 <= k < |dom| ensures Lower(dom)[k] != '@' {
      if IsSpace(dom[k]) { } else { LowerKeepsNonSpace(dom[k]); }
    }
  }

  /** The normal form built from trimmed text and its last `@` is already normal. */
  lemma NormalizedFixed(t: string, i: nat)
    requires t == [] || (!IsSpace(t[0]) && !IsSpace(t[|t| - 1]))
    requires LastIndexOf(t, '@') == Some(i)
    ensures var r := t[..i] + "@" + Lower(t[i + 1..]);
            NormalizeEmail(Some(r)) == r
  {
    var name := t[..i];
    var dom := t[i + 1..];
    var ld := Lower(dom);
    var r := name + "@" + ld;
    assert r[|name|] == '@' && r[|name| + 1..] == ld;
    assert '@' !in ld by {
      LowerShape(dom);
    }
    assert Lower(ld) == ld by {
      LowerIdempotent(dom);
    }
    assert !IsSpace(r[0]) by {
      if name != [] {
        assert r[0] == name[0] == t[0];
      }
    }
    assert !IsSpace(r[|r| - 1]) by {
      if dom != [] {
        assert r[|r| - 1] == ld[|ld| - 1] == LowerChar(t[|t| - 1]);
        LowerKeepsNonSpace(t[|t| - 1]);
      }
    }
    NormalFormFixed(r, |name|);
  }

  /** Normalizing twice gives what normalizing once gives. */
  lemma NormalizeEmailIdempotent(email: Option<string>)
    ensures NormalizeEmail(Some(NormalizeEmail(email))) == NormalizeEmail(email)
  {
    var e := GetOr(email, "");
    var t := Trim(e);
    TrimSlice(e);
    var at := LastIndexOf(t, '@');
    if at.Some? {
      assert NormalizeEmail(email) == t[..at.value] + "@" + Lower(t[at.value + 1..]);
      NormalizedFixed(t, at.value);
    }
  }

  /** A keyword argument to the model constructor: a text column or a boolean column. */
  datatype FieldValue = Text(text: string) | Flag(flag: bool)

  /** The columns the constructor accepts besides username, email and password. */
  const TextColumns: set<string> := {"first_name", "last_name", "role", "phone_number"}
  const FlagColumns: set<string> := {"is_active", "is_staff", "is_superuser"}
  /** Columns the constructor also accepts whose values this model does not keep. */
  const OtherColumns: set<string> := {"id", "last_login", "date_joined"}
  const Columns: set<string> := TextColumns + FlagColumns + OtherColumns

  /** Some keyword names no column of the user model. */
  predicate UnknownKey(extra: map<string, FieldValue>)
  {
    exists k :: k in extra && k !in Columns
  }

  /** Each known column is given a value of its own kind. */
  predicate WellTyped(extra: map<string, FieldValue>)
  {
    (forall k :: k in extra && k in TextColumns ==> extra[k].Text?)
    && (forall k :: k in extra && k in FlagColumns ==> extra[k].Flag?)
  }

  function TextOr(extra: map<string, FieldValue>, k: string, default: string): string
  {
    if k in extra && extra[k].Text? then extra[k].text else default
  }

  function FlagOr(extra: map<string, FieldValue>, k: string, default: bool): bool
  {
    if k in extra && extra[k].Flag? then extra[k].flag else default
  }

  const MsgUnexpectedKeyword := "TypeError: User() got unexpected keyword arguments"

  /** `self.model(username=..., email=..., **extra_fields)`: an unknown keyword is a TypeError. */
  function BuildUser(username: string, email: string, extra: map<string, FieldValue>): (r: Result<User, string>)
    requires WellTyped(extra)
    ensures r.Err? <==> UnknownKey(extra)
    ensures r.Ok? ==> r.value.username == username && r.value.email == email && r.value.password == Unusable
    ensures r.Ok? ==> r.value.phone == TextOr(extra, "phone_number", "")
    ensures r.Ok? ==> (forall k :: k in extra && k in FlagColumns ==>
                         extra[k].flag == match k
                           case "is_active" => r.value.isActive
                           case "is_staff" => r.value.isStaff
                           case _ => r.value.isSuperuser)
    ensures r.Ok? ==> ("is_active" !in extra ==> r.value.isActive) && ("is_staff" !in extra ==> !r.value.isStaff)
                      && ("is_superuser" !in extra ==> !r.value.isSuperuser)
  {
    if UnknownKey(extra) then Err(MsgUnexpectedKeyword)
    else Ok(User(username, email,
                 TextOr(extra, "first_name", ""), TextOr(extra, "last_name", ""),
                 TextOr(extra, "role", ""), TextOr(extra, "phone_number", ""),
                 Unusable,
                 FlagOr(extra, "is_active", true), FlagOr(extra, "is_staff", false),
                 FlagOr(extra, "is_superuser", false)))
  }

  const MsgUsernameRequired := "The Username field is required"
  const MsgEmailRequired := "The Email field is required"

  /**
   * `create_user`: an empty username or email raises before anything is built; otherwise
   * the user is built with the normalized email, its password hashed, and inserted.
   */
  method CreateUser(db: Directory, username: string, email: string, password: Option<string>,
                    extra: map<string, FieldValue>) returns (r: Result<nat, string>)
    requires db.Valid() && WellTyped(extra)
    modifies db
    ensures db.Valid() && db.students == old(db.students)
    ensures username == "" ==> r == Err(MsgUsernameRequired) && db.users == old(db.users)
    ensures username != "" && email == "" ==> r == Err(MsgEmailRequired) && db.users == old(db.users)
    ensures r.Err? ==> db.users == old(db.users)
    ensures r.Err? <==> username == "" || email == "" || UnknownKey(extra)
                        || ClashesOn(old(db.users), username, NormalizeEmail(Some(email)), TextOr(extra, "phone_number", ""))
    ensures r.Ok? ==> BuildUser(username, NormalizeEmail(Some(email)), extra).Ok? && r.value !in old(db.users)
                      && db.users == old(db.users)[r.value := BuildUser(username, NormalizeEmail(Some(email)), extra).value
                                                                .(password := MakePassword(password))]
  {
    if username == "" {
      return Err(MsgUsernameRequired);
    }
    if email == "" {
      return Err(MsgEmailRequired);
    }
    var normalized := NormalizeEmail(Some(email));
    var built := BuildUser(username, normalized, extra);
    if built.Err? {
      return Err(built.error);
    }
    var user := built.value.(password := MakePassword(password));
    ClashesOnExact(db.users, user);
    r := db.InsertUser(user);
  }

  /** Another stored user already has this username, email or phone number. */
  predicate ClashesOn(users: map<nat, User>, username: string, email: string, phone: string)
  {
    exists other :: other in users
      && (users[other].username == username || users[other].email == email || users[other].phone == phone)
  }

  /** A new user clashes exactly on its username, email and phone number. */
  lemma ClashesOnExact(users: map<nat, User>, u: User)
    ensures Clashes(users, u, None) <==> ClashesOn(users, u.username, u.email, u.phone)
  {
  }

  /** `extra_fields.setdefault(k, v)`. */
  function SetDefault(extra: map<string, FieldValue>, k: string, v: FieldValue): (r: map<string, FieldValue>)
    ensures k in r && (k in extra ==> r[k] == extra[k]) && (k !in extra ==> r[k] == v)
    ensures forall j :: j != k ==> (j in r <==> j in extra) && (j in extra ==> r[j] == extra[j])
  {
    if k in extra then extra else extra[k := v]
  }

  /** The keyword arguments `create_superuser` passes on, as written: the third default is `set_active`. */
  function SuperuserExtras(extra: map<string, FieldValue>): map<string, FieldValue>
  {
    SetDefault(SetDefault(SetDefault(extra, "is_staff", Flag(true)), "is_superuser", Flag(true)), "set_active", Flag(true))
  }

  /** `set_active` is not a column, so building a superuser always fails, whatever the caller passes. */
  lemma SuperuserExtrasAlwaysRejected(username: string, email: string, extra: map<string, FieldValue>)
    requires WellTyped(extra)
    ensures WellTyped(SuperuserExtras(extra))
    ensures BuildUser(username, email, SuperuserExtras(extra)).Err?
  {
    var x := SuperuserExtras(extra);
    assert "set_active" in x && "set_active" !in Columns;
    assert WellTyped(x) by {
      forall k | k in x && k in FlagColumns ensures x[k].Flag? {
        if k !in extra { assert k == "is_staff" || k == "is_superuser"; }
      }
    }
  }

  /** `create_superuser` as written: the defaults, then `create_user`. */
  method CreateSuperuserAsWritten(db: Directory, username: string, email: string, password: Option<string>,
                                  extra: map<string, FieldValue>) returns (r: Result<nat, string>)
    requires db.Valid() && WellTyped(extra)
    modifies db
    ensures db.Valid()
    ensures r.Err? && db.users == old(db.users)
  {
    SuperuserExtrasAlwaysRejected(username, email, extra);
    r := CreateUser(db, username, email, password, SuperuserExtras(extra));
  }

  /** The defaults evidently intended: staff, superuser and active, unless the caller says otherwise. */
  function SuperuserExtrasIntended(extra: map<string, FieldValue>): map<string, FieldValue>
  {
    SetDefault(SetDefault(SetDefault(extra, "is_staff", Flag(true)), "is_superuser", Flag(true)), "is_active", Flag(true))
  }

  /** With the intended defaults a superuser is built as staff, superuser and active unless overridden. */
  lemma SuperuserIntendedFlags(username: string, email: string, extra: map<string, FieldValue>)
    requires WellTyped(extra)
    requires !UnknownKey(extra)
    ensures WellTyped(SuperuserExtrasIntended(extra))
    ensures BuildUser(username, email, SuperuserExtrasIntended(extra)).Ok?
    ensures var u := BuildUser(username, email, SuperuserExtrasIntended(extra)).value;
            u.isStaff == FlagOr(extra, "is_staff", true) && u.isSuperuser == FlagOr(extra, "is_superuser", true)
            && u.isActive == FlagOr(extra, "is_active", true)
  {
    IntendedExtras(extra);
    IntendedBuilt(username, email, extra);
  }

  /** The intended defaults add only the three flag columns, each a flag, keeping the caller's values. */
  lemma IntendedExtras(extra: map<string, FieldValue>)
    requires WellTyped(extra)
    ensures var x := SuperuserExtrasIntended(extra);
            && WellTyped(x) && (forall k :: k in x ==> k in extra || k in FlagColumns)
            && "is_staff" in x && x["is_staff"] == Flag(FlagOr(extra, "is_staff", true))
            && "is_superuser" in x && x["is_superuser"] == Flag(FlagOr(extra, "is_superuser", true))
            && "is_active" in x && x["is_active"] == Flag(FlagOr(extra, "is_active", true))
            && (UnknownKey(x) <==> UnknownKey(extra))
            && TextOr(x, "phone_number", "") == TextOr(extra, "phone_number", "")
  {
    var x := SuperuserExtrasIntended(extra);
    if UnknownKey(x) {
      var k :| k in x && k !in Columns;
      assert k in extra;
    }
    if UnknownKey(extra) {
      var k :| k in extra && k !in Columns;
      assert k in x;
    }
    assert WellTyped(x) by {
      forall k | k in x && k in FlagColumns ensures x[k].Flag? {
        if k !in extra { assert k == "is_staff" || k == "is_superuser" || k == "is_active"; }
      }
    }
  }

  /** A superuser built from the intended defaults carries the three flags they set. */
  lemma IntendedBuilt(username: string, email: string, extra: map<string, FieldValue>)
    requires WellTyped(extra)
    requires WellTyped(SuperuserExtrasIntended(extra))
    requires BuildUser(username, email, SuperuserExtrasIntended(extra)).Ok?
    ensures var u := BuildUser(username, email, SuperuserExtrasIntended(extra)).value;
            u.isStaff == FlagOr(extra, "is_staff", true) && u.isSuperuser == FlagOr(extra, "is_superuser", true)
            && u.isActive == FlagOr(extra, "is_active", true)
  {
    IntendedExtras(extra);
    var x := SuperuserExtrasIntended(extra);
    assert "is_staff" in x && "is_staff" in FlagColumns;
    assert "is_superuser" in x && "is_superuser" in FlagColumns;
    assert "is_active" in x && "is_active" in FlagColumns;
  }

  /** `create_superuser` with the intended defaults; it shares `create_user`'s preconditions. */
  method CreateSuperuser(db: Directory, username: string, email: string, password: Option<string>,
                         extra: map<string, FieldValue>) returns (r: Result<nat, string>)
    requires db.Valid() && WellTyped(extra)
    modifies db
    ensures db.Valid()
    ensures username == "" ==> r == Err(MsgUsernameRequired) && db.users == old(db.users)
    ensures username != "" && email == "" ==> r == Err(MsgEmailRequired) && db.users == old(db.users)
    ensures db.students == old(db.students)
    ensures r.Err? ==> db.users == old(db.users)
    ensures r.Err? <==> username == "" || email == "" || UnknownKey(extra)
                        || ClashesOn(old(db.users), username, NormalizeEmail(Some(email)), TextOr(extra, "phone_number", ""))
    ensures r.Ok? ==> r.value !in old(db.users) && r.value in db.users
                      && db.users == old(db.users)[r.value := db.users[r.value]]
    ensures r.Ok? ==> var u := db.users[r.value];
                      u.username == username && u.email == NormalizeEmail(Some(email))
                      && u.phone == TextOr(extra, "phone_number", "") && u.password == MakePassword(password)
                      && u.isStaff == FlagOr(extra, "is_staff", true) && u.isSuperuser == FlagOr(extra, "is_superuser", true)
                      && u.isActive == FlagOr(extra, "is_active", true)
  {
    var x := SuperuserExtrasIntended(extra);
    IntendedExtras(extra);
    r := CreateUser(db, username, email, password, x);
    if r.Ok? {
      IntendedBuilt(username, NormalizeEmail(Some(email)), extra);
    }
  }
}
