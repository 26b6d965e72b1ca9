# ACM CUI club portal: a Dafny model of its rules

This project models the rules of the ACM CUI club portal. The portal has a Django REST backend and a React frontend.

On the backend, the model covers these parts:
- accounts, sign-in by username or email, and the user manager;
- the role permissions (admin, lead, student, treasurer);
- the student and user serializers and the user views;
- recruitment sessions and applications: their validators, atomic submission, role-scoped listing and status updates;
- blogs with their images, events and their images, meetings with attendance and the summary counts, and bills.

On the frontend, the model covers the logic in the pages and stores:
- sign-up form validation and error extraction;
- the member edit dialog's PATCH payload;
- the recruitment management page's status normalisation, statistics and filters;
- the event list's parsing and 12- to 24-hour time conversion, and the event team form;
- attendance marking, editing and charts;
- bill creation, the recruitment form, blog and article editing, and the teams and members pages;
- the dashboard sidebar.

Structure of the model:
- Each source file is one Dafny module.
- Tables are maps held by a class that the operations update in place.
- Page state is a class whose handlers are methods.
- Pure helpers are functions, and lemmas state what they promise.
- `CrossChecks` relates the browser's checks to the server's.

## Model

| member | source | states |
|---|---|---|
| Accounts.MakePassword | backend/api/models/user.py:13 | no password gives an unusable one, and a given password is never kept as plain text |
| Accounts.CheckPasswordExact | backend/api/models/user.py:13 | a password check succeeds exactly for the raw password whose hash is stored, and never for an unusable password |
| Accounts.UserPhoneExact | backend/api/models/user.py:21-29 | the phone validator's end-anchored pattern together with the 13-character limit accepts exactly "+92" followed by ten digits |
| Accounts.NewStudentRow | backend/api/models/user.py:40-49 | a new student row belongs to the given user and club, has the default roll number and picture, no title or description, and respects the column bounds |
| Accounts.WriteKeepsUnique | backend/api/models/user.py:18-29 | writing a user who clashes with nobody on username, email or phone keeps those columns unique |
| Accounts.StudentIn | backend/api/models/user.py:44 | the student row found for a user is linked to that user, and none is found when no row links to them |
| Accounts.Directory.StudentOf | backend/api/models/user.py:44 | the one-to-one lookup from a user to their student row |
| Accounts.Directory.InsertUser | backend/api/models/user.py:18-29 | an insert that would repeat a username, email or phone is refused and changes nothing; otherwise the user gets a fresh id |
| Accounts.Directory.InsertStudent | backend/api/models/user.py:44 | the new student row gets an id not used before, for a user who has no row yet, and users are untouched |
| Accounts.Directory.SaveUser | backend/api/models/user.py:18-29 | saving a changed user is refused when another user holds the same username, email or phone |
| Accounts.Directory.SaveStudent | backend/api/models/user.py:40-49 | the row is written back under its id, for the same owning user, and users are untouched |
| Accounts.Directory.DeleteStudent | backend/api/models/user.py:44 | deleting a student row keeps the user |
| Accounts.Directory.DeleteUser | backend/api/models/user.py:44 | deleting a user also deletes their student row |
| AuthBackend.Matching | backend/backend/auth_backends.py:11-15 | the query selects exactly the users whose username, email or student roll number equals the identifier |
| AuthBackend.Authenticate | backend/backend/auth_backends.py:9-20 | a success names the single matching user; two or more matches raise; no match gives no user |
| AuthBackend.AuthenticateSingleMatch | backend/backend/auth_backends.py:16-20 | with a single matching user, authentication succeeds exactly with that user's password, and never without a password |
| AuthBackend.AuthenticateByAnyIdentifier | backend/backend/auth_backends.py:11-15 | a user whose identifiers clash with nobody else's can sign in by username, by email and by roll number |
| AuthBackend.AmbiguousIdentifierRaises | backend/backend/auth_backends.py:11-15 | a username equal to another user's email makes the lookup match two users, and it raises instead of answering |
| AuthBackend.GetUser | backend/backend/auth_backends.py:22-26 | the user with that primary key, or none when there is no such user |
| UserManager.NormalFormFixed | backend/api/manager.py:14 | an address already in normal form (no surrounding space, lower-case domain after its last `@`) is left as it is |
| UserManager.NormalizeEmailAt | backend/api/manager.py:14 | normalizing keeps the part before the last `@` and lower-cases the domain after it |
| UserManager.NormalizeEmailIdempotent | backend/api/manager.py:14 | normalizing an address twice gives what normalizing it once gives |
| UserManager.BuildUser | backend/api/manager.py:15 | building fails exactly when a keyword names no column of the user model (`id`, `last_login` and `date_joined` are columns); otherwise the user has the given username, email and phone, the given flags, and is active and not staff by default |
| UserManager.CreateUser | backend/api/manager.py:5-18 | an empty username, then an empty email, is refused before anything is stored; the call fails exactly for those, for a keyword that names no column, or when the username, normalized email or phone is already taken (the unique constraints); otherwise the user is stored under a fresh id with the normalized email and the hashed password, and no other user changes |
| UserManager.SetDefault | backend/api/manager.py:24-26 | `setdefault` adds the key with the default only when the caller did not give it, and leaves every other key alone |
| UserManager.SuperuserExtrasAlwaysRejected | backend/api/manager.py:26 | as written, the third default names `set_active`, which is not a column, so building a superuser always fails |
| UserManager.CreateSuperuserAsWritten | backend/api/manager.py:20-28 | as written, creating a superuser always fails and stores nothing |
| UserManager.SuperuserIntendedFlags | backend/api/manager.py:24-26 | with the intended defaults the superuser is staff, superuser and active unless the caller says otherwise |
| UserManager.CreateSuperuser | backend/api/manager.py:20-28 | with the intended defaults, creating a superuser fails exactly for an empty username or email, a keyword that names no column, or a taken username, normalized email or phone; otherwise it stores, under a fresh id, a user with the given username, the normalized email, the hashed password, and staff, superuser and active unless overridden |
| Permissions.LeadAndAdminDisjoint | backend/api/permissions.py:11-24 | no caller passes both the lead test and the admin test, and an anonymous caller passes neither |
| Permissions.AdminOrReadOnlyExact | backend/api/permissions.py:26-30 | a safe method is open to everyone; any other method needs a signed-in admin, so an anonymous POST and a lead's DELETE are refused |
| Permissions.RoleIsLeadOrAdmin | backend/api/permissions.py:34 | as written, `role == LEAD or ADMIN` is `True` for a lead and the non-empty text `'ADMIN'` for every other role |
| Permissions.IsLeadOrAdminOnlyChecksSignIn | backend/api/permissions.py:32-34 | as written, the test grants every signed-in caller, a student included, and nobody else |
| Permissions.IsLeadOrAdminExact | backend/api/permissions.py:32-34 | the intended test grants exactly leads and admins, refuses a student, and grants nobody the written test refuses |
| Permissions.IsStaffAlwaysTruthy | backend/api/permissions.py:36-37 | as written, `is_staff` is truthy for every role, a student included |
| Permissions.IsStaffExact | backend/api/permissions.py:36-37 | the intended `is_staff` holds exactly for a lead or an admin |
| Permissions.IsTreasurer | backend/api/permissions.py:39-41 | the treasurer test never refuses with a message: it allows, denies, or raises |
| Permissions.TreasurerExact | backend/api/permissions.py:39-41 | the test allows exactly a signed-in caller whose student title upper-cases to TREASURER, so "treasurer" passes, and a caller without a student row raises |
| Permissions.SignUp | backend/api/permissions.py:43-48 | sign-up is never plainly denied: it is allowed, refused with the other-club message, or raises |
| Permissions.SignUpExact | backend/api/permissions.py:43-48 | only a lead who names a club other than their own is refused; anonymous callers and non-leads always pass, and a lead naming their own club passes |
| UserSerializers.ValidateRollNo | backend/api/serializers/user.py:17-18 | a refused roll number always comes with at least one message |
| UserSerializers.RollNoFieldExact | backend/api/serializers/user.py:17-18 | a roll number is accepted exactly when its trimmed text is FA or SP, two digits, "-B", CS, AI or SE, "-" and three digits, and the trimmed text is what is kept |
| UserSerializers.ValidateClub | backend/api/serializers/user.py:19-29 | the club field accepts exactly the five club slugs and the empty text, unchanged |
| UserSerializers.ValidateClubRequirement | backend/api/serializers/user.py:40-49 | the only error the object check raises is the club-required message on `club` |
| UserSerializers.ClubRequirementExact | backend/api/serializers/user.py:34-49 | the check passes exactly for an executive title or a non-empty club, and the title test is case-sensitive, so "president" without a club is refused |
| UserSerializers.NewUser | backend/api/serializers/user.py:51-54 | the user created for a new student stores the hash of the password, and is active and neither staff nor superuser |
| UserSerializers.CreateStudent | backend/api/serializers/user.py:31-56 | a clash on a unique user column is refused with nothing stored; otherwise the user is stored, and then a given `content` crashes the student insert with the user already saved; without it a student row linked to the new user holds the roll number, club, title, the given picture or the default one, and the given description |
| UserSerializers.ColumnNamed | backend/api/serializers/user.py:12 | an attribute name read as a user column names that column |
| UserSerializers.ColumnNamesRoundTrip | backend/api/serializers/user.py:12 | every user column is found again from its own name |
| UserSerializers.SetUserColumn | backend/api/serializers/user.py:69 | `setattr` on the password column stores the text as it is, and on a text column makes that column read as the value |
| UserSerializers.SetStudentColumn | backend/api/serializers/user.py:61-62 | `setattr` on a student row never changes the user the row belongs to |
| UserSerializers.AssignStudent | backend/api/serializers/user.py:61-62 | assigning the items in order never changes the user the row belongs to |
| UserSerializers.UpdateUserAttr | backend/api/serializers/user.py:65-69 | a `password` item stores the hash of its value; any other item leaves the password alone |
| UserSerializers.AssignStudentKeepsUnnamed | backend/api/serializers/user.py:61-62 | a student column that no item names keeps its value |
| UserSerializers.AssignUserPassword | backend/api/serializers/user.py:64-69 | after the user loop the password is the old one or the hash of a supplied password, never plain text |
| UserSerializers.NestedUserErrors | backend/api/serializers/user.py:15-16 | the nested user form's unique validators report exactly the unique columns whose supplied value any user holds, the edited user included |
| UserSerializers.FullUpdateRejectsOwnEmail | backend/api/serializers/user.py:15-16 | a full update that resends the user's own e-mail is refused as a duplicate |
| UserSerializers.UpdateStudent | backend/api/serializers/user.py:58-73 | the student columns are assigned in order; with user items the user is assigned (password hashed) and saved, and a unique-column clash refuses the update and changes nothing |
| UserSerializers.ProfileFormatError | backend/api/serializers/user.py:101-116 | a profile field fails on its own exactly when it is a first or last name over 150 characters, a blank e-mail or username, or an e-mail Django's address validator refuses |
| UserSerializers.ProfileFieldError | backend/api/serializers/user.py:101-134 | a profile field is refused exactly when it fails on its own, or when it is the e-mail or username and another user holds it; its own failure is reported first |
| UserSerializers.CleanProfileUser | backend/api/serializers/user.py:137-161 | the nested profile form passes exactly when every kept field passes and gives back the kept fields; otherwise, if some field fails on its own only those fields are reported, and only when all pass are the fields held by other users reported, each with its own message |
| UserSerializers.ProfileOwnValuesPass | backend/api/serializers/user.py:118-134 | resending the edited user's own valid e-mail and username, with names of at most 150 characters, passes, because the check excludes that user |
| UserSerializers.ProfileOtherEmailFails | backend/api/serializers/user.py:118-125 | an e-mail another user holds is refused |
| UserSerializers.ValidateProfile | backend/api/serializers/user.py:137-161 | the profile passes only with a description of at most 200 characters after trimming; the picture and trimmed description are kept, and a failure names the description or the user fields |
| UserSerializers.WithProfileFields | backend/api/serializers/user.py:173-177 | after the profile loop each supplied field reads as its new value, and the password, role, phone and flags are unchanged |
| UserSerializers.AssignProfileFields | backend/api/serializers/user.py:175-177 | the loop that assigns each supplied field ends with the user `WithProfileFields` describes |
| UserSerializers.ProfileUpdate | backend/api/serializers/user.py:163-181 | the picture and description are written only when present, the user fields are assigned, and both rows are saved |
| UserSerializers.ProfileSaveNoClash | backend/api/serializers/user.py:173-178 | fields that passed the self-excluding check can be saved without a unique-column clash |
| UserSerializers.RequiredText | backend/api/serializers/user.py:186-187 | a required text field passes exactly when it is present and not blank after trimming, and gives the trimmed text |
| UserSerializers.CheckCredentials | backend/api/serializers/user.py:189-202 | the credential check never reports field errors |
| UserSerializers.Login | backend/api/serializers/user.py:185-202 | field errors always name the username or the password |
| UserSerializers.CheckCredentialsExact | backend/api/serializers/user.py:189-200 | non-empty credentials log in exactly an active user matched alone whose password they are, and never get the "Must include" refusal |
| UserSerializers.LoginExact | backend/api/serializers/user.py:185-202 | login succeeds exactly for an active user matched alone by the trimmed identifier whose password is the trimmed password; the "Must include" refusal cannot happen |
| UserSerializers.DisabledAccountRefused | backend/api/serializers/user.py:194-196 | a correct password for a disabled account is refused with the disabled-account message |
| UserSerializers.ValidateOtpEmail | backend/api/serializers/user.py:205-211 | the address passes exactly when it is not blank after trimming, is a valid address and some user has it; the trimmed address is kept, and a malformed one gets "Enter a valid email address." |
| UserSerializers.OtpWordRefused | backend/api/serializers/user.py:205-206 | a word with no `@` in it is refused as not an address |
| Formats.EmailFromParts | backend/api/serializers/user.py:105 | an address built from a valid local part, an `@` and a domain name splits back at its last `@` into exactly those parts, and is valid exactly when it fits 320 characters |
| Formats.EmailNeedsAt | backend/api/serializers/user.py:206 | text without an `@` is never a valid address |
| Formats.EmailDomainNeedsDot | backend/api/serializers/user.py:206 | an address whose domain has no dot is refused unless the domain is `localhost` |
| Formats.EmailExample | backend/api/serializers/user.py:206 | an ordinary address such as `a@b.pk` passes |
| UserViews.StudentsList | backend/api/views/user.py:19-23 | the listing fails exactly for a lead without a student row, and otherwise lists only existing students |
| UserViews.StudentsListScope | backend/api/views/user.py:19-23 | a lead sees exactly the students of their own club, themselves included; any other caller sees every student |
| UserViews.UserKeyField | backend/api/views/user.py:56-58 | the field name taken from a `user[...]` key rebuilds that key |
| UserViews.UserKeyFieldOf | backend/api/views/user.py:56-58 | wrapping any field name as `user[f]` gives a user key whose field name is `f` again |
| UserViews.CurrentText | backend/api/views/user.py:62-63 | a modelled column reads as its text and `password` as the stored hash text; every other name, including real attributes the model does not keep, reads as the text "None" |
| UserViews.NonePasswordIsAChange | backend/api/views/user.py:62-64 | a `user[password]` of "None" differs from any hashed or unusable password, so it is passed on |
| UserViews.ParsePatch | backend/api/views/user.py:52-72 | the parsing loop yields the picture, the description and the changed user fields, and attaches the user part only when some field changed |
| UserViews.ParseUserFields | backend/api/views/user.py:55-64 | a user field is passed on exactly when its `user[f]` key is present, `f` is not `id` and the value's text differs from the current one, and the passed value is the request's |
| UserViews.ParseIgnoresOtherKeys | backend/api/views/user.py:55-68 | a request with no `user[...]`, `profile_pic` or `profile_desc` key yields nothing to update |
| UserViews.ParseDropsUnchanged | backend/api/views/user.py:62-64 | a field resent with its current text is not passed on |
| UserViews.PartialUpdate | backend/api/views/user.py:46-82 | an unknown student gives 404, an invalid form gives 400, and neither changes anything; a valid form writes exactly the validated profile change to the student and their user |
| UserViews.ProfileChangeSavable | backend/api/views/user.py:74-78 | a validated change names only profile columns and no e-mail or username held by another user, which is what the update needs |
| UserViews.Destroy | backend/api/views/user.py:84-90 | an existing student is deleted together with their user and the answer is 204; an unknown student gives 404 and changes nothing |
| RecruitmentModel.StatusChoices | backend/api/models/recruitment.py:7-11 | the status column's choices are exactly UNDER_REVIEW, ACCEPTED, REJECTED and INTERVIEWS |
| RecruitmentModel.StatusValueInjective | backend/api/models/recruitment.py:7-11 | distinct statuses are stored as distinct values |
| RecruitmentModel.ProgramChoices | backend/api/models/recruitment.py:12-15 | the programme column's choices are exactly BSCS, BSSE and BSAI |
| RecruitmentModel.DefaultStatus | backend/api/models/recruitment.py:76-80 | a new application's default status is UNDER_REVIEW, one of the choices |
| RecruitmentModel.SessionCodeFieldExact | backend/api/models/recruitment.py:25-34 | the session code column accepts exactly FA or SP followed by two ASCII digits; the four-character limit rules out a trailing newline |
| RecruitmentModel.Clean | backend/api/models/recruitment.py:47-62 | `clean` collects, under each step's own field, every step of the date chain that goes backwards |
| RecruitmentModel.CleanPassesIffOrdered | backend/api/models/recruitment.py:47-62 | with all five dates given, `clean` passes exactly when application start ≤ application end ≤ interview start ≤ interview end ≤ result date |
| RecruitmentModel.CleanReportsAllSteps | backend/api/models/recruitment.py:47-62 | all broken steps are reported at once: dates in strictly falling order give all four errors |
| RecruitmentModel.CleanAcceptsEqualDates | backend/api/models/recruitment.py:50-59 | equal neighbouring dates are not an error; only a strictly earlier date is |
| RecruitmentModel.CleanSkipsMissingDates | backend/api/models/recruitment.py:49-58 | a step is skipped when either of its two dates is missing |
| RecruitmentModel.CleanSessionSpansResult | backend/api/models/recruitment.py:47-62 | a fully dated session that passes `clean` has its application window before its result date |
| RecruitmentModel.FieldErrors | backend/api/models/recruitment.py:25-39 | the field validators flag the code exactly when it is not FA or SP with two digits, and otherwise flag only empty date columns |
| RecruitmentModel.SessionTable.FullCleanErrors | backend/api/models/recruitment.py:29-39 | `full_clean` reports nothing exactly when the row is valid (code, all dates, unbroken chain) and no other row uses its code |
| RecruitmentModel.SessionTable.Save | backend/api/models/recruitment.py:64-66 | a session with any `full_clean` error is refused and nothing is written; otherwise it is written under its own key or a fresh one |
| RecruitmentModel.PersonalPhoneExact | backend/api/models/recruitment.py:106-113 | the applicant's phone column accepts exactly "+92" followed by ten digits |
| RecruitmentModel.ModelAllowsEqualRoles | backend/api/models/recruitment.py:164-171 | the table itself accepts the same role as both preferred and secondary |
| RecruitmentSerializers.ValidateUniSession | backend/api/serializers/recruitment.py:42-48 | the session code passes exactly when it starts with FA or SP, and is then returned unchanged; otherwise the fixed message is raised |
| RecruitmentSerializers.SessionCodePassesPrefixCheck | backend/api/serializers/recruitment.py:42-48 | every code the session table accepts passes the serializer's prefix check |
| RecruitmentSerializers.PrefixCheckWeakerThanTable | backend/api/serializers/recruitment.py:42-48 | the prefix check is weaker than the table: "FA2024" passes it and is refused by the table |
| RecruitmentSerializers.ValidateSessionDates | backend/api/serializers/recruitment.py:50-69 | the payload passes exactly when none of the three steps goes backwards; the error names the first broken step's later field |
| RecruitmentSerializers.SessionDatesIgnoreModelFields | backend/api/serializers/recruitment.py:52-55 | a payload that carries only the table's own field names passes whatever its dates are, since the keys read here are not the table's |
| RecruitmentSerializers.SerializerStopsAtFirstBreak | backend/api/serializers/recruitment.py:57-68 | with every step broken, only the first ("end_date") is reported |
| RecruitmentSerializers.ValidateRoles | backend/api/serializers/recruitment.py:127-135 | a failure is always reported on `secondary_role` with the fixed message |
| RecruitmentSerializers.ValidateRolesExact | backend/api/serializers/recruitment.py:127-135 | an absent secondary role passes, different roles pass, and a non-empty role repeated is refused |
| RecruitmentSerializers.SerializerStricterThanTable | backend/api/serializers/recruitment.py:127-135 | a repeated role is stored by the table but refused by the serializer |
| RecruitmentSerializers.Represent | backend/api/serializers/recruitment.py:225-237 | the representation carries the application's id and its session's id |
| RecruitmentSerializers.CreateSubmission | backend/api/serializers/recruitment.py:198-223 | one fresh id keys the parent application, stored with status "Under Review" and the current time as its submission time, and its three nested rows; no other row changes, and the representation gives back what was submitted |
| RecruitmentSerializers.TextError | backend/api/models/recruitment.py:100-101 | a required text column passes exactly when its trimmed text is not blank and fits the maximum length; blank text gets the blank message |
| RecruitmentSerializers.EmailError | backend/api/models/recruitment.py:102-105 | the email column passes exactly when the trimmed text is not blank, is an address and has at most 254 characters; a malformed address gets the invalid-address message |
| RecruitmentSerializers.PhoneError | backend/api/models/recruitment.py:106-113 | the phone column passes exactly when the trimmed text is "+92" followed by ten digits |
| RecruitmentSerializers.ChoiceError | backend/api/models/recruitment.py:138-141 | a choice column passes exactly when the value is one of the choices, and otherwise names the value |
| RecruitmentSerializers.PersonalError | backend/api/models/recruitment.py:100-113 | the personal group passes exactly when both names are non-blank and at most 50 characters, the email passes and the phone has the +92 form |
| RecruitmentSerializers.AcademicError | backend/api/models/recruitment.py:131-141 | the academic group passes exactly when the registration number is non-blank and at most 20 characters and the programme is a choice |
| RecruitmentSerializers.PreferencesError | backend/api/models/recruitment.py:164-174 | the preferences group passes exactly when both roles are choices (an absent secondary is not checked), the purpose is not blank and the roles differ; with the columns valid, a failure is the different-roles message |
| RecruitmentSerializers.Cleaned | backend/api/serializers/recruitment.py:198-223 | the validated request keeps the session, choices and numbers and trims every text column |
| RecruitmentSerializers.SubmissionError | backend/api/serializers/recruitment.py:172-196 | a submission is refused exactly when the session does not exist or one nested group fails; a missing session is reported on `recruitment_session` |
| RecruitmentSerializers.Submit | backend/api/serializers/recruitment.py:172-223 | a submission is refused exactly when the session or a nested group fails, with that field and message, and nothing is written; otherwise one fresh id keys the application with status "Under Review" and the three trimmed nested rows, and the representation shows them |
| RecruitmentSerializers.AcceptedRowsPassColumns | backend/api/models/recruitment.py:100-174 | every row an accepted submission stores passes its table's column checks: names and registration number within their lengths, an email address, a +92 phone, a programme choice, and two different role choices |
| RecruitmentSerializers.AcceptedRolesDiffer | backend/api/serializers/recruitment.py:127-135 | accepted preferences with a secondary role hold two different role choices |
| RecruitmentSerializers.PaddedPhoneAccepted | backend/api/models/recruitment.py:106-113 | the phone pattern is matched after trimming: a well-formed number with surrounding white space passes |
| RecruitmentSerializers.SubmittedStatusIsNotAChoice | backend/api/serializers/recruitment.py:213-216 | the stored status "Under Review" is the label of a choice, not one of the column's choice values, nor the default |
| RecruitmentViews.UpdateStatus | backend/api/views/recruitment.py:57-68 | an unknown application is 404; a missing or empty status is 400 and changes nothing; otherwise the status becomes exactly the one supplied, and no nested row changes |
| RecruitmentViews.ActiveSessions | backend/api/views/recruitment.py:79-84 | a session is listed exactly when it is stored and its application window, both ends included, contains today |
| RecruitmentViews.ActiveWindowInclusive | backend/api/views/recruitment.py:81-84 | a session opening and closing today is listed today and neither the day before nor the day after |
| RecruitmentViews.ActiveSessionBeforeInterviews | backend/api/views/recruitment.py:79-84 | in a table whose rows all passed `clean`, a session listed as open today has its interviews and result still ahead |
| RecruitmentViews.SubmitOnlyPost | backend/api/views/recruitment.py:86-91 | the submit endpoint accepts a request method exactly when it is POST in any case; the status endpoint accepts PATCH and GET and refuses PUT and DELETE |
| RecruitmentViews.FilterErrors | backend/api/views/recruitment.py:42-44 | the filter form refuses `status` exactly when it is given, non-empty and not one of the column's choices, and `recruitment_session` exactly when it is given, non-empty and does not name a stored session |
| RecruitmentViews.SearchTerms | backend/api/views/recruitment.py:42-43 | every search term is non-empty and holds no white space, comma or NUL |
| RecruitmentViews.SingleTerm | backend/api/views/recruitment.py:42-43 | a search text with nothing to split off is its own single term |
| RecruitmentViews.BlankSearchHasNoTerms | backend/api/views/recruitment.py:42-43 | an empty search or one of separators only has no terms, so it does not restrict |
| RecruitmentViews.InsertNewest | backend/api/models/recruitment.py:83-84 | inserting a row into a newest-first list keeps it newest first and adds exactly that row |
| RecruitmentViews.NewestFirst | backend/api/models/recruitment.py:83-84 | the rows rearranged newest first, with the same rows |
| RecruitmentViews.ReviewList | backend/api/views/recruitment.py:29-44 | a refused filter value answers 400 naming exactly the refused filters; otherwise the listing holds exactly the stored applications that match every search term and every filter given, newest first |
| RecruitmentViews.ReviewListUnfiltered | backend/api/views/recruitment.py:29-44 | with no parameter given, every application is listed, newest first |
| RecruitmentViews.UnderReviewFilterRefused | backend/api/views/recruitment.py:44 | filtering by "Under Review", the status a submission is stored with, is refused as not a choice |
| RecruitmentViews.SearchFindsUnderReview | backend/api/views/recruitment.py:43 | a search for "under" matches the status "Under Review", letter case ignored |
| RecruitmentViews.UnknownSessionRefused | backend/api/views/recruitment.py:44 | a session filter naming an id that is not stored is refused |
| BlogSerializers.ChildError | backend/api/serializers/blog.py:53-56 | a file passes the list's image field exactly when it has a name, is not empty, decodes as an image and has an image extension; the checks run in that order |
| BlogSerializers.FirstChildErrorExact | backend/api/serializers/blog.py:53-56 | no child error exactly when every file is a readable image; a reported error is that of one of the files |
| BlogSerializers.ImageError | backend/api/serializers/blog.py:60-64 | the message for a refused image names that image first; size is checked before type |
| BlogSerializers.FirstImageErrorExact | backend/api/serializers/blog.py:58-65 | there is no error exactly when every image is within 5 MB and of an allowed type; otherwise the error is that of the first failing image |
| BlogSerializers.ValidateImages | backend/api/serializers/blog.py:58-65 | the loop returns the images unchanged when all pass and raises the first failing image's error otherwise |
| BlogSerializers.TextFieldError | backend/api/serializers/blog.py:51-52 | a text field passes exactly when it is present, not blank after trimming, and (for the title) at most 255 characters |
| BlogSerializers.FieldErrors | backend/api/serializers/blog.py:50-56 | the error map is empty exactly when no field failed, and holds only the three field names |
| BlogSerializers.UploadErrorsExact | backend/api/serializers/blog.py:50-65 | an upload is accepted exactly when title and content pass, the title fits, and there is at least one image, each a readable image file within 5 MB and of an allowed type; an empty image list is reported as required |
| BlogSerializers.ImagePath | backend/api/models/blog.py:7-9 | every image is stored under `blog_images/` |
| BlogSerializers.ImageRows | backend/api/serializers/blog.py:77-78 | one image row per upload, in order, each linked to the post and stored under its path |
| BlogSerializers.Kept | backend/api/serializers/blog.py:107-108 | an image survives the deletion exactly when it belongs to another post or its id is not listed, and survivors are unchanged |
| BlogSerializers.BlogDb.AddImages | backend/api/serializers/blog.py:77-78 | the post table is untouched and the image table gains exactly the rows for the uploads, under fresh ids |
| BlogSerializers.BlogDb.Create | backend/api/serializers/blog.py:67-80 | a new post under a fresh id, owned by the requesting user, followed by one image row per upload |
| BlogSerializers.BlogDb.Update | backend/api/serializers/blog.py:99-114 | absent title and content keep their values; this post's listed images are deleted and the new uploads appended |
| BlogSerializers.BlogDb.Delete | backend/api/models/blog.py:19-21 | deleting a post removes it and, by the cascade, exactly its images |
| BlogSerializers.UpdateImagesExact | backend/api/serializers/blog.py:107-112 | after an update an old image stays, unchanged, exactly when it belongs to another post or is not listed, the uploads follow under fresh ids linked to the post, and nothing else appears |
| BlogSerializers.ImageUrl | backend/api/serializers/blog.py:23-27 | there is no URL exactly when the image has no file or there is no request; otherwise the URL is the request's origin and media URL followed by the file name |
| BlogSerializers.ImageUrlInjective | backend/api/serializers/blog.py:23-27 | with the same origin, different files get different URLs |
| BlogViews.NormalizeFallbackUnreachable | backend/api/views/blog.py:129-133 | the single-file fallback can never fire: a present key always yields its files, and an absent key yields none |
| BlogViews.CollectUploadErrors | backend/api/views/blog.py:134-136 | the errors gathered (the image list's own file checks first, `validate_images` only after they pass) are exactly those of the upload form |
| BlogViews.Post | backend/api/views/blog.py:113-151 | a valid upload, every file a readable image within the size bound and of an allowed type, answers 201 and stores the trimmed post and one image per file; an invalid one answers 400 and stores nothing |
| BlogViews.InsertExact | backend/api/views/blog.py:193 | inserting into a newest-first list keeps it newest first and adds exactly the one entry |
| BlogViews.SortNewestFirst | backend/api/views/blog.py:193 | the listing is ordered newest first and is a permutation of the table |
| BlogViews.Take | backend/api/views/blog.py:200-201 | slicing to `n` gives a prefix of at most `n` entries, the whole list when it is short enough |
| BlogViews.FilterNewestFirst | backend/api/views/blog.py:193-197 | filtering a newest-first list keeps it newest first |
| BlogViews.BlogListExact | backend/api/views/blog.py:192-203 | an author id that `int()` refuses is a fault; otherwise the listing is newest first and drawn from the table; under an author id it holds exactly the table's posts whose author is the id `int()` reads (before any limit); it is no longer than a digit-only limit; with no filter it is the whole table |
| BlogViews.BlogListNegativeAuthor | backend/api/views/blog.py:195-197 | an author id such as `-1`, which `int()` reads as negative, gives an empty list rather than a fault |
| Formats.PyIntRoundTrip | backend/api/views/blog.py:197 | the author id lookup's `int()` reads back a spelled number and its negation |
| Formats.PyIntIgnoresSpace | backend/api/views/blog.py:197 | surrounding whitespace around the author id does not change the number read |
| Formats.PyIntPlusSign | backend/api/views/blog.py:197 | a leading plus sign is accepted |
| Formats.PyIntTrailingLetter | backend/api/views/blog.py:197 | a number followed by a letter is refused |
| Formats.PyIntRefuses | backend/api/views/blog.py:197 | a text whose first non-space character is neither a digit nor a sign is refused |
| Formats.IntegerFieldRoundTrip | backend/api/serializers/blog.py:88-92 | the `IntegerField` child reads a spelled number, with or without a trailing `.0`, back as that number |
| Formats.IntegerFieldRefusesWord | backend/api/serializers/blog.py:88-92 | the `IntegerField` child refuses a word |
| BlogViews.DeleteIds | backend/api/serializers/blog.py:88-92 | the ids to delete are read exactly when every text sent reads as an integer, each id being its text's value, in order |
| BlogViews.EditErrors | backend/api/serializers/blog.py:83-97 | the edit's errors name only its four fields, and name `images_to_delete` exactly when an id to delete is refused |
| BlogViews.EditErrorsExact | backend/api/serializers/blog.py:83-97 | a partial edit is accepted exactly when each text sent is not blank, the title fits, every new file is a readable image and every id to delete reads as an integer; sending nothing always passes |
| BlogViews.WordIdRefused | backend/api/serializers/blog.py:88-92 | an id to delete written as a word makes the edit fail on `images_to_delete` |
| BlogViews.Put | backend/api/views/blog.py:298-327 | 404 exactly for an unknown post; 200 exactly for a known post with a valid edit (texts checked, new files readable images, ids to delete integers), which updates the texts sent, deletes the post's images with the ids read and adds the new ones; otherwise nothing changes |
| BlogViews.Delete | backend/api/views/blog.py:371-386 | 404 for an unknown post and nothing changes; otherwise 200, and the post and exactly its images are gone |
| EventSerializers.SetField | backend/api/serializers/event.py:31-32 | `setattr` changes the named attribute to the value and leaves every other attribute as it was |
| EventSerializers.ApplyAllExact | backend/api/serializers/event.py:31-32 | after the assignments each attribute holds the value last assigned to it, or keeps its old value when it was not assigned |
| EventSerializers.AssignAttrs | backend/api/serializers/event.py:31-32 | the `setattr` loop leaves the event as the assignments, applied in order, describe |
| EventSerializers.TextError | backend/api/serializers/event.py:11-12 | a required text field passes exactly when it is present and not blank after trimming, or absent in a partial update |
| EventSerializers.ToInternalValue | backend/api/serializers/event.py:43-48 | the validated data keeps the attributes and carries `images` exactly when the request has at least one file, and then exactly those files |
| EventSerializers.EventDb.AddImages | backend/api/serializers/event.py:36-37 | the event table is untouched and the image table gains one row per file, linked to the event, under fresh ids |
| EventSerializers.ImageRows | backend/api/serializers/event.py:36-37 | one image row per file, in order, each linked to the event |
| EventSerializers.CreateAsWritten | backend/api/serializers/event.py:20-26 | the event row is written under a fresh id, no image row is written, and the call fails after the save exactly when images were uploaded |
| EventSerializers.Create | backend/api/serializers/event.py:20-26 | the intended create: the event row under a fresh id, then one image row per uploaded file linked to it |
| EventSerializers.Update | backend/api/serializers/event.py:28-40 | the supplied attributes are assigned in order and the uploaded files appended as image rows; no image is removed |
| EventSerializers.UpdateOnlyAddsImages | backend/api/serializers/event.py:34-37 | an update keeps every existing image unchanged and adds exactly one image per file for this event, nothing else |
| EventsSerializers.ValidateTitle | backend/api/serializers/events.py:30-33 | a refused title always gets "Title cannot be empty." |
| EventsSerializers.ValidateTitleExact | backend/api/serializers/events.py:30-33 | a title passes exactly when it has a non-whitespace character; the accepted title is the stripped input, and stripping again changes nothing |
| EventsSerializers.AgendaItemError | backend/api/serializers/events.py:45-51 | an item passes exactly when it is an object with `time` and `purpose`; a non-object and an object missing a key get their own messages |
| EventsSerializers.FirstAgendaErrorExact | backend/api/serializers/events.py:44-51 | an error is reported exactly when some item is ill-formed, and it is the first ill-formed item's error |
| EventsSerializers.ValidateAgendaExact | backend/api/serializers/events.py:35-53 | an agenda passes exactly when it is `null` or a list of well-formed items, and is then returned unchanged; any other value is "not a list" |
| EventsSerializers.CheckAgenda | backend/api/serializers/events.py:35-53 | the loop that raises at the first bad item gives the same verdict as the agenda check |
| EventsSerializers.InputNamesDistinct | backend/api/serializers/events.py:17-28 | each column is read from its own request key, and none from `id`, `images` or `event_type`, which are read-only |
| EventsSerializers.Supplied | backend/api/serializers/events.py:25-28 | a column is supplied exactly when its request key is present |
| EventsSerializers.CharText | backend/api/serializers/events.py:16-28 | a character field reads a string as sent and a number as its decimal spelling, and refuses every other JSON value |
| EventsSerializers.Errors | backend/api/serializers/events.py:16-53 | a request is refused on the title exactly when a sent title is not text, is blank or longer than 100 characters once stripped, or a create leaves it out; on the content exactly when a sent content is not text or blank, or a create leaves it out; on the agenda exactly when its validator fails; nothing else is refused |
| EventsSerializers.NumberTitleAccepted | backend/api/serializers/events.py:30-33 | a number is accepted as a title and validates to its decimal spelling, as long as that spelling fits the column |
| EventsSerializers.LongTitleRefused | backend/api/models/event.py:11 | a title longer than 100 characters with no whitespace at either end is refused |
| EventsSerializers.Stripped | backend/api/serializers/events.py:30-33 | only the named column changes, to its stripped text when it holds text; the key set is kept |
| EventsSerializers.ValidatedExact | backend/api/serializers/events.py:25-33 | the validated data holds exactly the supplied writable columns with their values, the title and the content as stripped text; `id` and `images` in the request change nothing |
| EventsSerializers.ValidatedTitle | backend/api/serializers/events.py:30-33 | without errors a sent title is the validated title and fits 100 characters, a create always has a title and a content, a sent content is non-blank text, and a sent agenda is kept as sent |
| EventsSerializers.WithDefaultsExact | backend/api/serializers/events.py:54-58 | a missing or `null` date becomes today and a missing or `null` time becomes now; every other supplied value is kept and no other column is added |
| EventsSerializers.EventStore.Create | backend/api/serializers/events.py:54-60 | a new row under a fresh id holding the validated data with the date and time defaults |
| EventsSerializers.EventStore.Update | backend/api/serializers/events.py:61-65 | the row becomes the old row with every validated attribute assigned in turn; no other row changes |
| EventsSerializers.AssignExact | backend/api/serializers/events.py:62-63 | after an update a column holds the value last assigned to it and an unassigned column keeps its value |
| Bills.DigitsBound | backend/api/models/bill.py:11 | a coefficient has at most `k` digits exactly when it is below 10^k, the bound the digit count check relies on |
| Bills.AmountExact | backend/api/models/bill.py:11 | an amount is accepted exactly when it is not negative, has at most two decimal places and is below 10^10 hundredths, that is below 10^8 |
| Bills.WholeAmountExact | backend/api/models/bill.py:11 | for a whole amount with a non-negative exponent, at most eight whole digits is the same as staying below 10^10 hundredths |
| Bills.ZeroAmountExact | backend/api/models/bill.py:11 | a zero amount passes exactly when its exponent lies between -2 and 7 |
| Bills.BillDate | backend/api/models/bill.py:12 | the date is the one given, otherwise today's |
| Bills.UploadPathExact | backend/api/models/bill.py:6-7 | the path of a saved bill's image names that bill and file: it equals another path exactly when both the id and the file name agree, and never equals an unsaved bill's `bills/None/` path |
| Bills.Bill.SaveRow | backend/api/models/bill.py:24 | an instance without id is inserted under a fresh id; an existing id with `force_insert` fails and changes nothing; otherwise the row is written under its id; the file goes to the path built from the id the instance had |
| Bills.Bill.Save | backend/api/models/bill.py:15-24 | a new bill is inserted without its image to get an id, then updated with the image stored under that id; an existing bill is saved once |
| Bills.TwoPhaseNamesTheBill | backend/api/models/bill.py:15-24 | the image of a new bill ends under `bills/<id>/`, which differs from the `bills/None/` path a one-step save would give |
| Bills.Bill.constructor | backend/api/models/bill.py:9-13 | a new bill has no id yet, the given description, amount and image, and the given date or else today's |
| Meetings.MeetingDb.InsertMeeting | backend/api/views/meeting.py:39 | the meeting is stored under a fresh id and no record changes |
| Meetings.MeetingDb.InsertRecords | backend/api/views/meeting.py:44 | the meetings are untouched and one record per validated entry is added, in order, under fresh ids |
| Meetings.MeetingErrors | backend/api/serializers/meeting.py:10-16 | only the two times and the venue can be refused; a meeting passes exactly when both times are given and the venue is a non-blank text of at most 50 characters |
| Meetings.BuildMeeting | backend/api/models/meeting.py:13-19 | the stored meeting has the given times, the given date or today, the venue trimmed (non-empty, at most 50 characters), and the agenda and highlights trimmed, a null staying null |
| Meetings.RowOf | backend/api/models/meeting.py:22-25 | an accepted entry becomes a record naming a stored meeting, a stored user and one of the three statuses |
| Meetings.TextIdAccepted | backend/api/serializers/meeting.py:4-7 | a stored id sent as its decimal text, as a primary-key field reads it with `int()`, names the same row as the number |
| Meetings.RowsOf | backend/api/views/meeting.py:42-44 | one record per entry, in order |
| Meetings.TagAll | backend/api/views/meeting.py:40-41 | every entry, and only that key of it, gets the new meeting's id |
| Meetings.TagEntries | backend/api/views/meeting.py:40-41 | the tagging loop gives every entry the id under the key |
| Meetings.CreateWith | backend/api/views/meeting.py:25-54 | without `attendance` and for an invalid meeting nothing is stored; a valid meeting is stored first, and its records are stored exactly when every tagged entry is valid, otherwise a 400 with empty errors leaves the meeting stored |
| Meetings.CreateMeetingAsWritten | backend/api/views/meeting.py:40-41 | as written, a valid meeting with entries that carry no `meeting` of their own is stored but its attendance is refused and no record is written |
| Meetings.AsWrittenTagRejects | backend/api/views/meeting.py:40-43 | with the id under `'meeting.py'`, entries without their own `meeting` never validate |
| Meetings.CreateMeeting | backend/api/views/meeting.py:25-54 | with the id under `'meeting'`, a valid meeting with well-formed entries is created with one record per entry, each for the new meeting with the entry's user and status |
| Meetings.IntendedTagAccepts | backend/api/views/meeting.py:40-43 | with the id under `'meeting'`, every well-formed entry validates and is recorded for the new meeting |
| Meetings.NewRecords | backend/api/views/meeting.py:42-44 | the records after the save are the old ones, unchanged, plus one per entry carrying the new meeting, the entry's user and its status |
| Meetings.AttendanceList | backend/api/views/meeting.py:74-78 | a lead without a student row is a fault; otherwise the listing is drawn from the stored records |
| Meetings.AttendanceListScope | backend/api/views/meeting.py:74-78 | a lead sees exactly the records of users in their own club; anyone else sees every record |
| Meetings.GetMeeting | backend/api/views/meeting.py:104-108 | the stored meeting when the key exists, otherwise "Meeting not found" |
| Meetings.MinutesRecords | backend/api/views/meeting.py:110-119 | every record shown belongs to the meeting asked for |
| Meetings.MinutesRecordsScope | backend/api/views/meeting.py:110-119 | a lead with a student row sees exactly this meeting's records of their club, an admin all of this meeting's records, anyone else none |
| Meetings.AttendanceSection | backend/api/views/meeting.py:210-231 | the header followed by one row per record, in order, each with the record's status; the no-records message appears exactly when there are no records |
| Meetings.RowForRollNo | backend/api/views/meeting.py:213-219 | the roll number column shows the user's student roll number, or `N/A` when the user has no student row |
| Meetings.SummaryOf | backend/api/views/meeting.py:233-241 | the total is the number of records, and the three counts add up to it when every status is one of the choices |
| Meetings.TitleCase | backend/api/views/meeting.py:181 | `title()` keeps the length, leaves non-letters alone, capitalises a letter after a non-letter and lower-cases a letter after a letter |
| Meetings.ClubHeadingShape | backend/api/views/meeting.py:180-191 | the heading has no underscore left, each underscore became a space and each word starts with a capital |
| Meetings.MinutesFilename | backend/api/views/meeting.py:274-280 | the download name starts with `acm_meeting_minutes_` and carries the whole date |
| Meetings.MinutesFilenameInjective | backend/api/views/meeting.py:277-279 | different meeting dates give different download names |
| Meetings.SubsequenceUsersKnown | backend/api/views/meeting.py:110-119 | the records shown name stored users, as the table's do |
| Meetings.MeetingMinutesExact | backend/api/views/meeting.py:92-102 | the minutes are missing exactly for an unknown meeting, fail exactly for a non-admin without a student row, and otherwise carry the meeting, its dated file name, a club heading for everyone but an admin and one row per counted record; a plain student gets an empty table |
| RecruitmentManagement.CollapseSepsChars | frontend/src/pages/Recruitment/RecruitmentManagement.jsx:54 | after the replacement no whitespace or hyphen is left, and every other character is an underscore or comes from the input |
| RecruitmentManagement.CollapseNoSeps | frontend/src/pages/Recruitment/RecruitmentManagement.jsx:54 | a text without whitespace or hyphens is left alone by the replacement |
| RecruitmentManagement.NormalizeStatusIdempotent | frontend/src/pages/Recruitment/RecruitmentManagement.jsx:49-55 | a normalised status has no whitespace, hyphen or lower-case letter, and normalising it again changes nothing |
| RecruitmentManagement.NormalizeTwoWords | frontend/src/pages/Recruitment/RecruitmentManagement.jsx:49-55 | two words joined by one space normalise to the upper-cased words joined by an underscore |
| RecruitmentManagement.NormalizeOneWord | frontend/src/pages/Recruitment/RecruitmentManagement.jsx:49-55 | a text without whitespace or hyphens is only upper-cased |
| RecruitmentManagement.UnderReviewNormalizes | frontend/src/pages/Recruitment/RecruitmentManagement.jsx:48-55 | the label "Under Review" normalises to UNDER_REVIEW |
| RecruitmentManagement.AcceptedNormalizes | frontend/src/pages/Recruitment/RecruitmentManagement.jsx:48-55 | the label "Accepted" normalises to ACCEPTED |
| RecruitmentManagement.RejectedNormalizes | frontend/src/pages/Recruitment/RecruitmentManagement.jsx:48-55 | the label "Rejected" normalises to REJECTED |
| RecruitmentManagement.InterviewsNormalizes | frontend/src/pages/Recruitment/RecruitmentManagement.jsx:48-55 | the label "Interviews" normalises to INTERVIEWS |
| RecruitmentManagement.LabelNormalizes | frontend/src/pages/Recruitment/RecruitmentManagement.jsx:119-133 | each of the four labels the page shows normalises back to a known status |
| RecruitmentManagement.UiStatusUnknown | frontend/src/pages/Recruitment/RecruitmentManagement.jsx:119-148 | a status that does not normalise to a known one shows its raw text, or "Unknown" when empty, and gets no badge class |
| RecruitmentManagement.UiStatusExact | frontend/src/pages/Recruitment/RecruitmentManagement.jsx:119-148 | a status gets a coloured badge exactly when it normalises to one of the four known statuses, whatever its spelling, and is then shown as that status's label |
| RecruitmentManagement.StatsOf | frontend/src/pages/Recruitment/RecruitmentManagement.jsx:260-276 | the total is the list length, each of the three figures counts the applications whose normalised status is that one, and together they never exceed the total |
| RecruitmentManagement.DistinctRolesExact | frontend/src/pages/Recruitment/RecruitmentManagement.jsx:281-288 | the role options are exactly the non-empty roles, each once, in order of first appearance |
| RecruitmentManagement.RoleOptions | frontend/src/pages/Recruitment/RecruitmentManagement.jsx:281-288 | the set filled in one pass and read back gives the distinct roles in first-appearance order |
| RecruitmentManagement.FilteredOneFilter | frontend/src/pages/Recruitment/RecruitmentManagement.jsx:293-330 | the three stages in a row are the same as one filter by all three conditions |
| RecruitmentManagement.FilteredExact | frontend/src/pages/Recruitment/RecruitmentManagement.jsx:293-330 | the visible list keeps the order and holds exactly the applications whose normalised status equals the status filter, whose role equals the role filter, and whose name, email, reg no or role contains the trimmed lower-cased search; an empty filter applies no condition |
| RecruitmentManagement.ExportParamsExact | frontend/src/pages/Recruitment/RecruitmentManagement.jsx:58-74 | without a session id (missing or zero) the export is an error with no request; otherwise the query carries the session id, plus the role and status filters exactly when they are set |
| Regform.RegNoError | frontend/src/components/Auth/Regform.jsx:76-89 | no message exactly when the value is empty or matches the registration-number pattern; otherwise the fixed format message |
| Regform.PhoneError | frontend/src/components/Auth/Regform.jsx:91-104 | no message exactly when the value is empty or is "+92" followed by ten digits; otherwise the fixed format message |
| Regform.SplitNameExact | frontend/src/components/Auth/Regform.jsx:110-137 | the first name is the trimmed input up to its first space and holds no space; without a space the last name is empty, otherwise it is the trimmed rest |
| Regform.Keep | frontend/src/components/Auth/Regform.jsx:138-165 | the kept characters all satisfy the test, and an input whose characters all do is kept whole |
| Regform.SanitizeRegExact | frontend/src/components/Auth/Regform.jsx:138-149 | the sanitized number is at most 12 characters of `[A-Z0-9-]`, sanitizing again changes nothing, and a well-formed number in any case comes out upper-cased and whole |
| Regform.SanitizePhoneExact | frontend/src/components/Auth/Regform.jsx:150-165 | a sanitized phone holds digits and at most one leading `+`, sanitizing again changes nothing, and a well-formed number is kept as typed |
| Regform.TitleSelect | frontend/src/components/Auth/Regform.jsx:188-198 | choosing "custom" switches to free text; "NULL" and "custom" clear the title, any other choice becomes the title |
| Regform.TitleInput | frontend/src/components/Auth/Regform.jsx:199-204 | the typed title keeps its length and holds no lower-case letter |
| Regform.SubmitExact | frontend/src/components/Auth/Regform.jsx:207-236 | once the browser lets the form through (see `Regform.Press`), the handler sends it exactly when the registration number and the phone are well formed and a club is chosen or the title is an executive title; an empty title is sent as "NULL"; a bad number is reported first; empty values do not pass |
| Regform.Reset | frontend/src/components/Auth/Regform.jsx:244-264 | after a successful registration the number, phone and title are empty and only a lead keeps their club |
| Regform.ResetNotSubmittable | frontend/src/components/Auth/Regform.jsx:244-264 | a freshly reset form cannot be sent again: the empty registration number is refused first |
| Regform.Press | frontend/src/components/Auth/Regform.jsx:313-510 | pressing Register sends the request exactly when the browser accepts the page (every required input filled, the email input an address, the club chosen unless the title is executive or the drop-down is disabled, the button enabled while no field message shows and nothing is loading) and the submit handler passes; the payload is the handler's; an alert comes only from the handler after the browser accepted |
| Regform.PressAlertsOnlyClub | frontend/src/components/Auth/Regform.jsx:207-232 | through the browser the registration-number and phone alerts never show; an alert appears exactly for a lead with an empty own club and a non-executive title, and it is the club alert |
| Regform.ResetPageBlocked | frontend/src/components/Auth/Regform.jsx:244-264 | after a reset, pressing Register again is blocked by the browser |
| Regform.ExtractFromExact | frontend/src/components/Auth/Regform.jsx:275-289 | flattening yields one line per leaf message, and under a prefix every line begins with that prefix and a dot |
| Regform.ExtractValueExact | frontend/src/components/Auth/Regform.jsx:279-287 | one entry contributes one line per leaf message, each beginning with its field path |
| Regform.AlertLines | frontend/src/components/Auth/Regform.jsx:267-302 | the alert after a failed signup always has at least one line |
| Regform.AlertLinesExact | frontend/src/components/Auth/Regform.jsx:267-302 | an object message gives one line per leaf message when it has any; otherwise the error, the data or the fixed text stands alone |
| EditMemberModal.KeyInjective | frontend/src/components/members/EditMemberModal.jsx:92-100 | the seven user fields have seven distinct request keys |
| EditMemberModal.Set | frontend/src/components/members/EditMemberModal.jsx:63-69 | writing a user field changes that field to the value and no other |
| EditMemberModal.Change | frontend/src/components/members/EditMemberModal.jsx:53-71 | the title is stored upper-cased, the roll number and club as typed, and any other input goes into the user record |
| EditMemberModal.UserChangesExact | frontend/src/components/members/EditMemberModal.jsx:102-110 | an entry is collected exactly for each field that is sent (a non-blank password, any other field that differs from the member), with the form's value; none of them is `id` |
| EditMemberModal.CollectUserChanges | frontend/src/components/members/EditMemberModal.jsx:102-110 | the `forEach` over the seven fields collects exactly the changed user fields, in order |
| EditMemberModal.DataToSendExact | frontend/src/components/members/EditMemberModal.jsx:79-115 | roll number and club are sent exactly when they differ from the member; the title exactly when it differs with null read as empty, and a blank title as null; the user record exactly when some user field is sent, and then it ends with the user's id; nothing is sent exactly when nothing changed |
| EditMemberModal.NullFieldAlwaysSent | frontend/src/components/members/EditMemberModal.jsx:81-86 | a member whose club or roll number is null always has that field sent, whatever the form holds |
| EditMemberModal.Prefixed | frontend/src/components/members/EditMemberModal.jsx:126-129 | each user entry is sent under `user.` followed by its key, in order |
| EditMemberModal.FlattenLoop | frontend/src/components/members/EditMemberModal.jsx:123-133 | the form-data loop appends exactly the flattened entries |
| EditMemberModal.Submit | frontend/src/components/members/EditMemberModal.jsx:73-135 | once the browser lets the form through (see `EditMemberModal.Press`), the handler makes no request when nothing changed and otherwise patches the student with the flattened changes |
| EditMemberModal.SubmitExact | frontend/src/components/members/EditMemberModal.jsx:112-135 | in the handler, no request exactly when nothing changed; every key sent is `roll_no`, `club`, `title` or `user.<key>`, and `user.id` is among them exactly when some user field is |
| EditMemberModal.Press | frontend/src/components/members/EditMemberModal.jsx:164-323 | Save reaches the submit handler exactly when no save is running and the browser accepts the form (roll number and club filled in, the email empty or an address), and then does what the handler does |
| EditMemberModal.AcceptedNeverClears | frontend/src/components/members/EditMemberModal.jsx:178-212 | a form the browser accepts never sends an empty roll number or an empty club |
| EventsListPage.ParseArrayFieldExact | frontend/src/pages/Events/EventsListPage.jsx:86-101 | a value that is not an array gives no items; otherwise exactly the non-blank parsed forms of its elements are kept, in order, never more than there were |
| EventsListPage.PlainItemKept | frontend/src/pages/Events/EventsListPage.jsx:92-100 | a text that does not parse as JSON is kept as it is, exactly when it is not blank |
| EventsListPage.ListField | frontend/src/pages/Events/EventsListPage.jsx:176-191 | a blank text sends nothing; otherwise every part sent is non-empty and holds no comma |
| EventsListPage.JoinSplitRoundTrip | frontend/src/pages/Events/EventsListPage.jsx:133-191 | names shown joined by ", " and saved again come back as the same list, for names that are trimmed, non-empty and comma-free |
| EventsListPage.ParseInt | frontend/src/pages/Events/EventsListPage.jsx:121 | a text of digits parses to its value |
| EventsListPage.ConvertTo24HourPlain | frontend/src/pages/Events/EventsListPage.jsx:104-110 | an empty time stays empty and a 24-hour time is kept as its first five characters |
| EventsListPage.ConvertTo24HourTwelve | frontend/src/pages/Events/EventsListPage.jsx:112-124 | a 12-hour time becomes its 24-hour hour, padded to two digits, with the same minutes; 12 AM is 00 and 12 PM is 12 |
| EventsListPage.ConvertedIs24 | frontend/src/pages/Events/EventsListPage.jsx:104-124 | the converted time is a 24-hour time holding that hour, and converting it again changes nothing |
| EventsListPage.TwoDigitsExact | frontend/src/pages/Events/EventsListPage.jsx:121-123 | a padded hour is two digits whose value is the hour |
| EventsListPage.DeleteImage | frontend/src/pages/Events/EventsListPage.jsx:56-65 | the list keeps its length and order, and only the event concerned changes |
| EventsListPage.DeleteImageExact | frontend/src/pages/Events/EventsListPage.jsx:56-65 | the event concerned loses exactly the deleted image and keeps its other images in order |
| Seqs.RemoveAt | frontend/src/pages/Events/EventsListPage.jsx:71-73 | removing a valid position gives one element fewer with the later elements shifted down; any other position changes nothing |
| EventsListPage.ImageEntries | frontend/src/pages/Events/EventsListPage.jsx:193-195 | one `image` entry per new file, in order |
| EventsListPage.SaveEdit | frontend/src/pages/Events/EventsListPage.jsx:163-195 | the form data built by the save loop is exactly the save entries |
| EventsListPage.SaveEntriesExact | frontend/src/pages/Events/EventsListPage.jsx:163-195 | the nine fixed fields come first, the speakers and tags only when not blank, then one entry per new image |
| EventsListPage.ShownHoursExact | frontend/src/pages/Events/EventsListPage.jsx:112-123 | for an hour from 1 to 12 the padded hours shown are the two-digit 24-hour hour, 12 AM giving 00 and 12 PM giving 12 |
| EventTeamForm.BlankMember | frontend/src/pages/Events/EventTeamForm.jsx:8-15 | a blank member has exactly the six fields, all empty |
| EventTeamForm.Resize | frontend/src/pages/Events/EventTeamForm.jsx:41-55 | the list gets exactly the new length, keeps the members it had up to that length, and fills the rest with blank members |
| EventTeamForm.ResizeLaws | frontend/src/pages/Events/EventTeamForm.jsx:41-55 | resizing to the current length changes nothing, shrinking after resizing is one resize, and growing then shrinking back restores the list |
| EventTeamForm.SetMember | frontend/src/pages/Events/EventTeamForm.jsx:120-126 | one field of one member takes the value and every other member is unchanged |
| EventTeamForm.TeamForm.constructor | frontend/src/pages/Events/EventTeamForm.jsx:31-39 | the form starts with two blank members, the count 2 and no error |
| EventTeamForm.TeamForm.CountChange | frontend/src/pages/Events/EventTeamForm.jsx:57-91 | an empty entry clears the field and the error; a non-digit entry is ignored; above 10 the error shows and the field reverts to the count; below 1 the error shows and nothing resizes; otherwise the count and the list follow the entry; the list always has as many members as the count, between 1 and 10 |
| EventTeamForm.TeamForm.CountBlur | frontend/src/pages/Events/EventTeamForm.jsx:93-118 | leaving the field shows the count; an empty or non-digit entry reverts with no error; a number is clamped into 1..10, with the matching error, and the list resized to it |
| EventTeamForm.TeamForm.MemberChange | frontend/src/pages/Events/EventTeamForm.jsx:120-126 | typing in a member's field changes only that field of that member |
| EventTeamForm.Clamp | frontend/src/pages/Events/EventTeamForm.jsx:103-113 | the clamped count lies within 1..10, equals the number when it already does, and is the nearer limit otherwise |
| MarkAttendance.MatchTime | frontend/src/pages/Attendance/MarkAttendance.jsx:58-61 | a match has one or two hour digits, two minute digits and a modifier that reads AM or PM in any case |
| MarkAttendance.ClockHours | frontend/src/pages/Attendance/MarkAttendance.jsx:87-88 | a value passing the submit check has an hour below 100 |
| MarkAttendance.ClockConverts | frontend/src/pages/Attendance/MarkAttendance.jsx:56-68 | a value passing the submit check, joined with AM or PM, always converts: to its modified hour in two digits, its minutes and zero seconds |
| MarkAttendance.ModifiedHourIsHour24 | frontend/src/pages/Attendance/MarkAttendance.jsx:64-65 | for hours 1 to 12, PM adds twelve below 12 and 12 AM becomes 0, the usual 24-hour hour |
| MarkAttendance.AgreesWithEventsList | frontend/src/pages/Attendance/MarkAttendance.jsx:56-68 | this page and the events list read a 12-hour time alike: this page's value is the events list's `HH:MM` followed by `:00` |
| MarkAttendance.To24HourEmpty | frontend/src/pages/Attendance/MarkAttendance.jsx:57-59 | an empty or unmatched time gives `""` |
| MarkAttendance.Initial | frontend/src/pages/Attendance/MarkAttendance.jsx:34-42 | once the students arrive every student id has an entry, and every entry is unmarked |
| MarkAttendance.Mark | frontend/src/pages/Attendance/MarkAttendance.jsx:44-46 | marking a user sets that user's entry and leaves every other entry unchanged |
| MarkAttendance.SubmitExact | frontend/src/pages/Attendance/MarkAttendance.jsx:70-105 | the submit goes ahead exactly when every student is marked, the three texts are filled and both times pass the check; it then carries one entry per student with its mark and the details unchanged; an unmarked student is reported first |
| MarkAttendance.InitialBlocksSubmit | frontend/src/pages/Attendance/MarkAttendance.jsx:34-42 | a freshly loaded class with at least one student cannot be submitted before marking |
| MarkAttendance.CountsOf | frontend/src/pages/Attendance/MarkAttendance.jsx:118-122 | the total is the number of entries |
| MarkAttendance.CountsBound | frontend/src/pages/Attendance/MarkAttendance.jsx:118-122 | the three counts never exceed the total, and fill it once everyone is marked with one of the three statuses |
| AttendanceChart.Percentage | frontend/src/components/Attendance/MarkAttendane/AttendanceChart.jsx:5 | no records gives 0; otherwise the percentage is within a half of `100 * present / total`, halves rounded up |
| AttendanceChart.PercentageUnique | frontend/src/components/Attendance/MarkAttendane/AttendanceChart.jsx:5 | that rounding has exactly one result |
| AttendanceChart.PercentageRange | frontend/src/components/Attendance/MarkAttendane/AttendanceChart.jsx:5 | with at most as many present as members, the percentage lies in 0..100, is 0 with nobody present and 100 with everybody, and grows with the number present |
| AttendanceChart.Arc | frontend/src/components/Attendance/MarkAttendane/AttendanceChart.jsx:19 | the drawn arc is the percentage's share of the 565-unit circumference |
| AttendanceChart.ArcBound | frontend/src/components/Attendance/MarkAttendane/AttendanceChart.jsx:19 | the arc never exceeds the circle, is empty with nobody present and the full circle with everybody |
| AttendanceSection.Summarize | frontend/src/components/Attendance/View/AttendanceSection.jsx:4-8 | the total is the number of records, each count the number of records with that status, and the percentage the chart's rounding of present over total |
| AttendanceSection.SummaryBounds | frontend/src/components/Attendance/View/AttendanceSection.jsx:4-8 | the counts never exceed the total and fill it when every record has one of the three statuses; the percentage lies in 0..100 and is 0 without records |
| AttendanceSection.StatusShownExact | frontend/src/components/Attendance/View/AttendanceSection.jsx:54-56 | a student shows "N/A" exactly when no record is about them; otherwise the lower-cased status of the first record about them |
| AttendanceSection.StatusColumn | frontend/src/components/Attendance/View/AttendanceSection.jsx:54-68 | one status per student, in the students' order |
| AttendanceForm.FieldNameInjective | frontend/src/components/Attendance/MarkAttendane/AttendanceForm.jsx:41-57 | the inputs' names are pairwise different, so a change event reaches exactly one field |
| AttendanceForm.SetDetail | frontend/src/pages/Attendance/MarkAttendance.jsx:48-51 | the named field takes the new value and every other detail keeps its value |
| AttendanceForm.AcceptsTimeExact | frontend/src/components/Attendance/MarkAttendane/AttendanceForm.jsx:13-15 | the per-character time test accepts exactly the values the partial-time pattern matches |
| AttendanceForm.AcceptsTimePrefix | frontend/src/components/Attendance/MarkAttendane/AttendanceForm.jsx:13-15 | every prefix of an accepted value is accepted, so it can be typed key by key, and no accepted value is longer than five characters |
| AttendanceForm.ClockAccepted | frontend/src/components/Attendance/MarkAttendane/AttendanceForm.jsx:13-15 | every `H:MM` or `HH:MM` time the submit accepts can be typed into a time field |
| AttendanceForm.TimeValueChangeExact | frontend/src/components/Attendance/MarkAttendane/AttendanceForm.jsx:9-18 | an accepted value lands in its own time field and nowhere else; a rejected value leaves the details unchanged |
| AttendanceForm.ModifierForwarded | frontend/src/components/Attendance/MarkAttendane/AttendanceForm.jsx:20-23 | the forwarded name is that time's modifier field name, which takes the choice while every other field is kept |
| AttendanceForm.ActionsKeepWellFormed | frontend/src/components/Attendance/MarkAttendane/AttendanceForm.jsx:9-23 | from well-formed details any sequence of edits keeps both modifiers AM or PM and both time values empty or accepted |
| AttendanceForm.InitialWellFormed | frontend/src/pages/Attendance/MarkAttendance.jsx:18-26 | the page starts with 2:00 PM to 3:00 PM, which is well formed |
| AttendanceForm.SubmittedStartConverts | frontend/src/pages/Attendance/MarkAttendance.jsx:56-68 | after any edits, a start time that passes the submit's clock check converts to a non-empty 24-hour time |
| EditAttendance.LoadedExact | frontend/src/components/Attendance/Edit/EditAttendance.jsx:9-20 | for a numeric route id the editor holds exactly the listed records of that meeting, in the server's order |
| EditAttendance.LoadedNaN | frontend/src/components/Attendance/Edit/EditAttendance.jsx:13 | for an id that does not start with a digit no record matches and the editor is empty |
| EditAttendance.SetStatus | frontend/src/components/Attendance/Edit/EditAttendance.jsx:60-69 | the record with the chosen id takes the status; the length, every id and meeting and every other status are kept |
| EditAttendance.SetStatusLaws | frontend/src/components/Attendance/Edit/EditAttendance.jsx:60-69 | edits keep the list within one meeting, a second edit of a record overrides the first, and edits of different records commute |
| EditAttendance.Rows | frontend/src/components/Attendance/Edit/EditAttendance.jsx:48-50 | one row per student that has a record, each row one of the loaded records |
| EditAttendance.RowsAboutStudents | frontend/src/components/Attendance/Edit/EditAttendance.jsx:48-50 | every row is a record about one of the listed students |
| EditAttendance.SaveRequest | frontend/src/components/Attendance/Edit/EditAttendance.jsx:23-30 | the save sends the record itself as the body |
| EditAttendance.SaveRequestDistinct | frontend/src/components/Attendance/Edit/EditAttendance.jsx:25 | saves of records with different ids go to different addresses |
| EditAttendance.Editor.constructor | frontend/src/components/Attendance/Edit/EditAttendance.jsx:5-7 | the editor starts empty, not loading and without error |
| EditAttendance.Editor.Fetch | frontend/src/components/Attendance/Edit/EditAttendance.jsx:9-20 | a successful answer replaces the list with its records of this meeting; a failure keeps the list and records the server's detail or the default message; loading ends either way |
| EditAttendance.Editor.ChangeStatus | frontend/src/components/Attendance/Edit/EditAttendance.jsx:60-69 | the list becomes the status edit of the old list; loading and error are kept |
| AttendanceStore.UpdatedExact | frontend/src/store/useAttendanceStore.js:45-48 | an update keeps the length and order, leaves entries with other ids alone and replaces those with the id by the answer; with an answer of the same id the ids are kept and a repeated update changes nothing |
| AttendanceStore.RemovedExact | frontend/src/store/useAttendanceStore.js:65-67 | a delete removes exactly the entries with that id and keeps the rest in order, shortening the list by their number |
| AttendanceStore.Store.constructor | frontend/src/store/useAttendanceStore.js:5-9 | the store starts with no meetings, no students, not loading and no error |
| AttendanceStore.Store.FetchMeetings | frontend/src/store/useAttendanceStore.js:10-21 | the answer replaces the meetings, or the error becomes the server's message or the default; the students are kept and loading ends |
| AttendanceStore.Store.CreateMeeting | frontend/src/store/useAttendanceStore.js:23-39 | the created meeting is appended and returned; a failure keeps the list, sets the error and is passed on |
| AttendanceStore.Store.UpdateMeeting | frontend/src/store/useAttendanceStore.js:41-59 | the entries with that id become the server's answer, which is returned; a failure keeps the list, sets the error and is passed on |
| AttendanceStore.Store.DeleteMeeting | frontend/src/store/useAttendanceStore.js:61-76 | the entries with that id leave the list; a failure keeps the list, sets the error and is passed on |
| AttendanceStore.Store.FetchStudents | frontend/src/store/useAttendanceStore.js:78-89 | the answer replaces the students, or the error is set; the meetings are kept and loading ends |
| AttendanceStore.CreateThenDelete | frontend/src/store/useAttendanceStore.js:23-76 | deleting a freshly created meeting whose id is new gives back the list as it was before the create |
| EditMeeting.FormatForBackend | frontend/src/components/Attendance/Edit/EditMeeting.jsx:13-14 | a five-character time gains zero seconds and becomes eight characters; any other text is sent as it is |
| EditMeeting.Shown | frontend/src/pages/Attendance/EditAttendancePage.jsx:26 | the shown time is the first five characters of the stored one, or all of it when shorter |
| EditMeeting.FormatRoundTrip | frontend/src/components/Attendance/Edit/EditMeeting.jsx:13-14 | showing then saving an eight-character time keeps its hours and minutes with zero seconds, and gives the time back when its seconds were zero; saving does not change what is shown and is idempotent |
| EditMeeting.Payload | frontend/src/components/Attendance/Edit/EditMeeting.jsx:16-20 | the body keeps the id, date, venue, agenda and highlights and formats only the two times |
| EditMeeting.UneditedRoundTrip | frontend/src/components/Attendance/Edit/EditMeeting.jsx:16-20 | a meeting saved without edits is sent back exactly as loaded when both its times have zero seconds |
| EditMeeting.Editor.constructor | frontend/src/components/Attendance/Edit/EditMeeting.jsx:6 | the editor starts not saving |
| EditMeeting.Editor.Update | frontend/src/components/Attendance/Edit/EditMeeting.jsx:8-31 | the request carries the payload of the edited meeting, the editor closes exactly when the request succeeds, and saving is over either way |
| CreateBillPage.ParseCents | frontend/src/pages/Bills/CreateBillPage.jsx:36 | a plain amount with a whole part and two decimals parses to the number it writes |
| CreateBillPage.AmountAgreesWithRecord | frontend/src/pages/Bills/CreateBillPage.jsx:33-44 | for an amount typed with two decimals the page accepts it exactly when the bill record's ten-digit, two-place, non-negative amount field accepts the decimal the server reads |
| CreateBillPage.DigitsAppendTwo | frontend/src/pages/Bills/CreateBillPage.jsx:36 | appending two digits multiplies the value by a hundred and adds theirs |
| CreateBillPage.DescriptionError | frontend/src/pages/Bills/CreateBillPage.jsx:26-30 | the trimmed description passes exactly when it is non-empty and within the record's 200 characters; an empty one gets the required message |
| CreateBillPage.AmountError | frontend/src/pages/Bills/CreateBillPage.jsx:33-44 | the amount passes exactly when it is given, a number, not negative and at most 99,999,999.99; the required and not-a-number messages appear exactly in their cases |
| CreateBillPage.DateError | frontend/src/pages/Bills/CreateBillPage.jsx:47-54 | the date passes exactly when it is given and the browser parses it; an empty date gets the required message |
| CreateBillPage.ImageError | frontend/src/pages/Bills/CreateBillPage.jsx:57-66 | no image, or an image of at most 5 MB whose type starts with image/, passes; the type message wins whenever the type is wrong |
| CreateBillPage.ValidateFormExact | frontend/src/pages/Bills/CreateBillPage.jsx:22-70 | the form passes exactly when all four field checks pass, and validation never sets a general message |
| CreateBillPage.PassingFormAgreesWithRecord | frontend/src/pages/Bills/CreateBillPage.jsx:22-70 | a form that passes sends a description and a two-decimal amount that the bill record accepts |
| CreateBillPage.FirstIfArray | frontend/src/pages/Bills/CreateBillPage.jsx:81-83 | a list gives its first message (undefined when empty); anything else is taken as it is |
| CreateBillPage.Copied | frontend/src/pages/Bills/CreateBillPage.jsx:80-99 | a field key gives a message exactly when its value is truthy, and the message is its first element when it is a list |
| CreateBillPage.ParseBackendErrors | frontend/src/pages/Bills/CreateBillPage.jsx:75-112 | a non-object body gives no errors; an object gives each field's message and the general message from non_field_errors, else from detail |
| CreateBillPage.FalsyMessageFromList | frontend/src/pages/Bills/CreateBillPage.jsx:80-99 | a copied field message can be falsy only when the server sent an empty list or a list whose first message is falsy |
| CreateBillPage.ValidationBodyShown | frontend/src/pages/Bills/CreateBillPage.jsx:75-112 | a validation body with a list of messages under one field shows its first message under that field and no general message |
| CreateBillPage.Entries | frontend/src/pages/Bills/CreateBillPage.jsx:155-162 | the form data holds the trimmed description, the amount and date as typed, and the image when one is chosen, in that order |
| CreateBillPage.AsJson | frontend/src/pages/Bills/CreateBillPage.jsx:68-69 | the stored errors are empty exactly when validation found none |
| CreateBillPage.Wrap | frontend/src/pages/Bills/CreateBillPage.jsx:68 | a message is stored as text, and only a present message is stored |
| CreateBillPage.BlankImage | frontend/src/pages/Bills/CreateBillPage.jsx:117-119 | a truthy image error becomes empty text; every other field's error is kept |
| CreateBillPage.Page.constructor | frontend/src/pages/Bills/CreateBillPage.jsx:8-17 | the page starts with an empty form, no image or preview, no errors and not submitting |
| CreateBillPage.Page.RemoveImage | frontend/src/pages/Bills/CreateBillPage.jsx:114-122 | the file and its preview go, the image error is blanked, and the form is kept |
| CreateBillPage.Page.ImageChange | frontend/src/pages/Bills/CreateBillPage.jsx:124-140 | a chosen file replaces the old one with its preview and blanks the image error; choosing none removes the image |
| CreateBillPage.Page.Check | frontend/src/pages/Bills/CreateBillPage.jsx:145-151 | the errors become the validation's, and the check passes exactly when there are none |
| CreateBillPage.Page.Send | frontend/src/pages/Bills/CreateBillPage.jsx:164-203 | success clears the form and the image; a refusal shows the server's errors, no response the network message, any other failure its own message or the default; a failure keeps the form |
| CreateBillPage.Page.Submit | frontend/src/pages/Bills/CreateBillPage.jsx:142-203 | nothing is sent exactly when validation fails, and then its errors are shown and the form kept; otherwise the form data is sent, the request settles as Send says, and submitting is over |
| RecruitmentForm.ChangeExact | frontend/src/pages/Recruitment/RecruitmentForm.jsx:29-31 | after a change the named field holds the typed text and every other field keeps its text |
| RecruitmentForm.RequiredExact | frontend/src/pages/Recruitment/RecruitmentForm.jsx:34-38 | a field is counted by the progress bar exactly when it is not one of the four optional fields |
| RecruitmentForm.RequiredDistinct | frontend/src/pages/Recruitment/RecruitmentForm.jsx:34-38 | each counted field is listed once |
| RecruitmentForm.ProgressRange | frontend/src/pages/Recruitment/RecruitmentForm.jsx:40-42 | the progress lies between 0 and 100 |
| RecruitmentForm.RequiredIndexed | frontend/src/pages/Recruitment/RecruitmentForm.jsx:34-40 | a property holds of every required field exactly when it holds at every position of the list |
| RecruitmentForm.ProgressFull | frontend/src/pages/Recruitment/RecruitmentForm.jsx:40-42 | the bar is full exactly when every required field holds more than blanks |
| RecruitmentForm.ProgressEmpty | frontend/src/pages/Recruitment/RecruitmentForm.jsx:40-42 | the bar is empty exactly when every required field is blank after trimming |
| RecruitmentForm.BlankProgress | frontend/src/pages/Recruitment/RecruitmentForm.jsx:40-42 | a form whose fields are all empty shows no progress |
| RecruitmentForm.OptionalIgnored | frontend/src/pages/Recruitment/RecruitmentForm.jsx:33-43 | typing in an optional field never moves the bar |
| RecruitmentForm.ChangeMovesOneStep | frontend/src/pages/Recruitment/RecruitmentForm.jsx:29-43 | one change fills or empties at most one required field |
| RecruitmentForm.InitialProgress | frontend/src/pages/Recruitment/RecruitmentForm.jsx:11-27 | the page opens with an empty bar |
| RecruitmentForm.Page.constructor | frontend/src/pages/Recruitment/RecruitmentForm.jsx:9-27 | the page opens with every field empty and the confirmation unchecked |
| RecruitmentForm.Page.ChangeField | frontend/src/pages/Recruitment/RecruitmentForm.jsx:29-43 | the form becomes the changed form, the confirmation is kept, and the bar stays within 0 to 100 |
| RecruitmentForm.Page.Confirm | frontend/src/pages/Recruitment/RecruitmentForm.jsx:310-311 | the checkbox sets the confirmation and leaves the form alone |
| RecruitmentForm.Page.HandleSubmit | frontend/src/pages/Recruitment/RecruitmentForm.jsx:45-53 | the handler moves on exactly when the information was confirmed, and otherwise stays on the page |
| RecruitmentForm.Page.Submit | frontend/src/pages/Recruitment/RecruitmentForm.jsx:84-321 | pressing submit moves on exactly when the browser accepts the form: the eleven required inputs have values, the e-mail input holds a valid address, a non-empty LinkedIn input holds a URL, and the box is ticked; otherwise the submission is blocked before the handler runs |
| RecruitmentForm.WarningUnreachable | frontend/src/pages/Recruitment/RecruitmentForm.jsx:47-50 | a submission the browser lets through is always confirmed and has every required field filled, so the confirmation warning can never show |
| RecruitmentForm.AcceptedFormIsComplete | frontend/src/pages/Recruitment/RecruitmentForm.jsx:40-42 | a submission the browser lets through, with no required field starting with whitespace, shows a full progress bar |
| Formats.HtmlEmailNonEmpty | frontend/src/pages/Recruitment/RecruitmentForm.jsx:117-123 | an address the e-mail input accepts has at least two characters, so a required e-mail input is never empty |
| Formats.HtmlEmailNeedsAt | frontend/src/pages/Recruitment/RecruitmentForm.jsx:117-123 | the e-mail input refuses text without an `@` |
| Formats.HtmlEmailLooserThanServer | frontend/src/pages/Recruitment/RecruitmentForm.jsx:117-123 | the e-mail input accepts `a@b`, which the server's e-mail validator refuses |
| BlogCard.EditDeleteExclusive | frontend/src/components/Blogs/BlogCard.jsx:28-30 | the edit and delete buttons never show together, and a non-admin whose id reads as the author's gets the edit button |
| BlogCard.EditComparesAsText | frontend/src/components/Blogs/BlogCard.jsx:28 | ids compare as text, so a numeric id and the same id held as text both enable editing |
| BlogCard.HandleDelete | frontend/src/components/Blogs/BlogCard.jsx:37-57 | a request goes out exactly when the deletion is confirmed and a token is stored, carrying that token; the grid drops the blog exactly when the server accepts |
| BlogCard.DeleteAddressesDistinct | frontend/src/components/Blogs/BlogCard.jsx:48 | deleting two different blogs goes to two different addresses |
| BlogGrid.ToCard | frontend/src/components/Blogs/BlogGrid.jsx:38-59 | a card keeps the blog's id and title, takes "Unknown" for a missing author, the creator's id or else the blog's user as author id, and the first image or null |
| BlogGrid.ToCardProfile | frontend/src/components/Blogs/BlogGrid.jsx:40-57 | the author's picture and name come from the first student with the creator's user id, when truthy |
| BlogGrid.ToCardNoProfile | frontend/src/components/Blogs/BlogGrid.jsx:40-57 | without a matching student the picture is null and the name falls back to the blog's author or "Unknown" |
| BlogGrid.Cards | frontend/src/components/Blogs/BlogGrid.jsx:38 | one card per listed blog, in the server's order |
| BlogGrid.KeptExact | frontend/src/components/Blogs/BlogGrid.jsx:61-63 | with the user filter and a signed-in user exactly the cards whose author id reads as the user's are kept, in order; otherwise all are |
| BlogGrid.Grid.constructor | frontend/src/components/Blogs/BlogGrid.jsx:10-15 | the grid starts empty, loading, without error and showing twelve cards |
| BlogGrid.Grid.Fetch | frontend/src/components/Blogs/BlogGrid.jsx:17-75 | a successful load shows the kept cards of the listed blogs, a failure keeps the old cards and shows the load error; loading ends either way |
| BlogGrid.Grid.DeleteBlog | frontend/src/components/Blogs/BlogGrid.jsx:77-79 | exactly the cards with the deleted id leave the grid, the rest stay in order |
| BlogGrid.Grid.LoadMore | frontend/src/components/Blogs/BlogGrid.jsx:81 | twelve more cards become visible and nothing else changes |
| BlogGrid.Grid.Visible | frontend/src/components/Blogs/BlogGrid.jsx:90 | the visible cards are the first visibleCount cards, or all of them when fewer |
| BlogGrid.Grid.LoadMoreShownExactly | frontend/src/components/Blogs/BlogGrid.jsx:103 | the Load More button is hidden exactly when every card is visible, and while it shows exactly visibleCount cards are |
| ArticleStore.InlineImageData | frontend/src/store/useArticleStore.js:10-11 | the inline upload sends exactly one entry, the file under image |
| ArticleStore.InlineImageUrl | frontend/src/store/useArticleStore.js:17 | reading the address throws exactly when the body is `null` or missing; any other body that is not an object yields `undefined` |
| ArticleStore.InlineImageUrlExact | frontend/src/store/useArticleStore.js:17 | an object body gives back the address under its last `url` member, as `JSON.parse` keeps the last duplicate |
| ArticleStore.SaveData | frontend/src/store/useArticleStore.js:24-29 | the form data holds the title and the content, then the cover under images when there is one |
| ArticleStore.SaveRequest | frontend/src/store/useArticleStore.js:31-41 | an edit puts to the blog's own edit address, a creation posts to the upload address, both with the save form data |
| ArticleStore.EditNeverCreates | frontend/src/store/useArticleStore.js:31-34 | an edit never goes to the creation address |
| ArticleStore.ErrorValue | frontend/src/store/useArticleStore.js:45-50 | the recorded error is always truthy |
| ArticleStore.ErrorValueExact | frontend/src/store/useArticleStore.js:46-49 | the server's message when truthy, else the whole body, and the default message without a response |
| ArticleStore.Store.constructor | frontend/src/store/useArticleStore.js:6-7 | the store starts not loading and without error |
| ArticleStore.Store.SaveBlog | frontend/src/store/useArticleStore.js:21-55 | without a title or content nothing is sent and nothing changes; otherwise the save request goes out, a success returns the body, a failure records the error and is passed on, and loading ends |
| ArticleEditor.SubmitCheck | frontend/src/components/Blogs/ArticleEditor.jsx:100-111 | the title check comes first, then the cover (picked or shown), then the content, which must not be blank or the empty editor |
| ArticleEditor.ReadyPassesStoreCheck | frontend/src/components/Blogs/ArticleEditor.jsx:100-120 | a submit that passes the editor's checks also passes the store's, so it always sends |
| ArticleEditor.Editor.constructor | frontend/src/components/Blogs/ArticleEditor.jsx:9-13 | the editor starts in the given mode with empty fields, no cover and no preview |
| ArticleEditor.Editor.Prefill | frontend/src/components/Blogs/ArticleEditor.jsx:20-26 | in edit mode a loaded blog fills the title and content and shows its first image; a blog without images makes the page fail; otherwise nothing changes |
| ArticleEditor.Editor.CoverChange | frontend/src/components/Blogs/ArticleEditor.jsx:28-34 | a chosen file becomes the cover with its preview; choosing none changes nothing |
| ArticleEditor.Editor.RemoveCover | frontend/src/components/Blogs/ArticleEditor.jsx:36-39 | the cover and its preview go, so a titled article then fails the cover check |
| ArticleEditor.Editor.Save | frontend/src/components/Blogs/ArticleEditor.jsx:113-136 | the store's save request is sent, the page moves on exactly when it succeeds, and only a successful creation clears the fields |
| ArticleEditor.Editor.Submit | frontend/src/components/Blogs/ArticleEditor.jsx:96-137 | a failed check sends nothing and changes nothing; a passing one saves as Save says |
| TeamsCard.ShortDescriptionExact | frontend/src/components/teams/TeamsCard.jsx:6-8 | a description of at most 120 characters is shown whole; a longer one shows its first 120 characters and an ellipsis, so the card never shows more than 123 |
| MemberCard.ShortDesignationExact | frontend/src/components/members/MemberCard.jsx:6-9 | a missing, empty or short designation is shown as it is; one longer than 50 characters shows its first 50 and an ellipsis, at most 53 in all |
| TeamPage.ClubOf | frontend/src/pages/TeamPage.jsx:16-22 | a team title names a club exactly when it is one of the five titles of the club map |
| TeamPage.ClubMapInjective | frontend/src/pages/TeamPage.jsx:16-22 | different team titles name different clubs |
| TeamPage.DesignationExact | frontend/src/pages/TeamPage.jsx:41 | the shown designation is never "NULL"; it is empty exactly when the title is missing, empty or "NULL", and otherwise the title itself |
| TeamPage.ToMember | frontend/src/pages/TeamPage.jsx:38-43 | a member keeps the student's user id, name and picture and takes the shown designation |
| TeamPage.Members | frontend/src/pages/TeamPage.jsx:36-43 | one member per student of the page's club |
| TeamPage.MembersExact | frontend/src/pages/TeamPage.jsx:32-43 | for a known team every student of its club is listed and every listed member is one of them; a title that names no team lists no one |
| TeamPage.Page.constructor | frontend/src/pages/TeamPage.jsx:13-14 | the page starts without members and loading |
| TeamPage.Page.FetchMembers | frontend/src/pages/TeamPage.jsx:24-54 | a load shows the members of the title's club, a failure keeps the old list; loading ends either way |
| TeamSection.ExecutivesExact | frontend/src/components/teams/TeamSection.jsx:64-75 | exactly the students whose title, upper-cased, is one of the six executive titles are kept, in order |
| TeamSection.NextIndex | frontend/src/components/teams/TeamSection.jsx:111-113 | the next card is the following one, wrapping from the last to the first |
| TeamSection.PrevIndex | frontend/src/components/teams/TeamSection.jsx:107-109 | the previous card is the one before, wrapping from the first to the last |
| TeamSection.CarouselLaws | frontend/src/components/teams/TeamSection.jsx:107-113 | next and previous undo each other, and five steps either way come back to the same card |
| TeamSection.Section.constructor | frontend/src/components/teams/TeamSection.jsx:49-53 | the carousel starts on the middle card without members and loading |
| TeamSection.Section.FetchMembers | frontend/src/components/teams/TeamSection.jsx:57-86 | a load shows the executives of the answer, a failure keeps the old list; the active card is kept and loading ends |
| TeamSection.Section.Next | frontend/src/components/teams/TeamSection.jsx:111-113 | the active card moves to the next one and the members are kept |
| TeamSection.Section.Prev | frontend/src/components/teams/TeamSection.jsx:107-109 | the active card moves to the previous one and the members are kept |
| TeamSection.Section.OpenedTitle | frontend/src/components/teams/TeamSection.jsx:88-95 | the active card opens a team page whose title names a club |
| TeamSection.EveryTeamHasClub | frontend/src/components/teams/TeamSection.jsx:15-46 | every team of the carousel names a club of the team page, and different teams name different clubs |
| EventListing.FilteredExact | frontend/src/components/LandingPage/Events/EventListing.jsx:32-36 | the listing keeps the events' order and shows exactly the events of the chosen category whose title contains the term, ignoring case |
| EventListing.EmptySearchShowsCategory | frontend/src/components/LandingPage/Events/EventListing.jsx:32-36 | with an empty search the category alone decides, and "All Events" shows every event |
| EventListing.SearchIgnoresCase | frontend/src/components/LandingPage/Events/EventListing.jsx:34 | a term typed in another case finds the same events |
| EventListing.CategoryNarrowsAll | frontend/src/components/LandingPage/Events/EventListing.jsx:32-36 | a category pill narrows the "All Events" results for the same term to that category's events, in order |
| EventListing.EventsCategorised | frontend/src/components/LandingPage/Events/EventListing.jsx:17-30 | every listed event belongs to one of the pills other than "All Events" |
| EventListing.Listing.constructor | frontend/src/components/LandingPage/Events/EventListing.jsx:27-28 | the listing starts with an empty search on "All Events" |
| EventListing.Listing.FoundCount | frontend/src/components/LandingPage/Events/EventListing.jsx:65 | the count shown never exceeds the number of events |
| EventListing.Listing.Search | frontend/src/components/LandingPage/Events/EventListing.jsx:44-49 | typing sets the search term and keeps the category |
| EventListing.Listing.Choose | frontend/src/components/LandingPage/Events/EventListing.jsx:56-59 | a pill sets the category and keeps the search term |
| EventsCreatePage.EventDataRoundTrip | frontend/src/pages/Events/EventsCreatePage.jsx:33-39 | the form data starts with the title, content and date, and the server reads back under images exactly the picked files in order |
| EventsCreatePage.Page.constructor | frontend/src/pages/Events/EventsCreatePage.jsx:8-12 | the page starts with empty texts and no images or previews |
| EventsCreatePage.Page.SetTexts | frontend/src/pages/Events/EventsCreatePage.jsx:8-10 | typing sets the three texts and keeps the images |
| EventsCreatePage.Page.AddImages | frontend/src/pages/Events/EventsCreatePage.jsx:15-20 | the new files and their previews are appended in order, keeping one preview per file |
| EventsCreatePage.Page.RemoveImage | frontend/src/pages/Events/EventsCreatePage.jsx:22-25 | the file and its preview at the index leave together, every other pair keeps its place relative to the rest |
| EventsCreatePage.Page.BuildData | frontend/src/pages/Events/EventsCreatePage.jsx:33-39 | the loop builds exactly the event's form data |
| EventsCreatePage.Page.HandleSubmit | frontend/src/pages/Events/EventsCreatePage.jsx:27-49 | nothing is sent exactly when no image is picked; otherwise the form data carrying every image in order is sent, and the page moves on exactly when it is accepted |
| EventsCreatePage.Page.Submit | frontend/src/pages/Events/EventsCreatePage.jsx:56-103 | something is sent exactly when the required title, content and date all have values and an image is picked; what is sent carries every image in order, and the page moves on exactly when it is accepted |
| TrackMembersPage.RoleClass | frontend/src/pages/Members/TrackMembersPage.jsx:9-14 | the badge is always one of the three role classes |
| TrackMembersPage.OtherMentionsNothing | frontend/src/pages/Members/TrackMembersPage.jsx:10-12 | the fallback role text mentions neither student nor lead |
| TrackMembersPage.RoleClassExact | frontend/src/pages/Members/TrackMembersPage.jsx:9-14 | a missing or empty role gets the other badge; otherwise "student" anywhere in the lower-cased role gives the student badge even beside "lead", "lead" alone the lead badge, anything else the other badge |
| TrackMembersPage.RoleClassIgnoresCase | frontend/src/pages/Members/TrackMembersPage.jsx:10 | the badge does not depend on letter case |
| TrackMembersPage.FetchError | frontend/src/pages/Members/TrackMembersPage.jsx:35 | the recorded error is always truthy |
| TrackMembersPage.FetchErrorExact | frontend/src/pages/Members/TrackMembersPage.jsx:35 | the server's detail when it has one, the default message without a response |
| TrackMembersPage.Page.constructor | frontend/src/pages/Members/TrackMembersPage.jsx:18-25 | the page starts loading, with no members, no error, both dialogs closed and nobody selected |
| TrackMembersPage.Page.Shown | frontend/src/pages/Members/TrackMembersPage.jsx:79-106 | loading is shown first, then a truthy error, then the empty message, and otherwise the table of every member |
| TrackMembersPage.Page.FetchMembers | frontend/src/pages/Members/TrackMembersPage.jsx:28-39 | a success replaces the members and clears the error, a failure keeps them and records the error; loading ends and the dialogs are untouched |
| TrackMembersPage.Page.View | frontend/src/pages/Members/TrackMembersPage.jsx:46-49 | the member is selected and the view dialog opens; the rest is kept |
| TrackMembersPage.Page.Edit | frontend/src/pages/Members/TrackMembersPage.jsx:51-54 | the member is selected and the edit dialog opens; the rest is kept |
| TrackMembersPage.Page.CloseModals | frontend/src/pages/Members/TrackMembersPage.jsx:56-60 | both dialogs close and nobody stays selected; the list is kept |
| TrackMembersPage.Page.SaveSuccess | frontend/src/pages/Members/TrackMembersPage.jsx:62-65 | the list is fetched again as FetchMembers says and both dialogs close with nobody selected |
| Sidebar.DashboardTitleExact | frontend/src/components/dashboard/Sidebar.jsx:51-62 | the admin, lead and student roles each get their own title, and every other role, or none, the plain "Dashboard" |
| Sidebar.Toggle | frontend/src/components/dashboard/Sidebar.jsx:31-33 | the named dropdown is open afterwards exactly when it was not open before, and no other dropdown is |
| Sidebar.ToggleTwice | frontend/src/components/dashboard/Sidebar.jsx:31-33 | toggling the same dropdown twice restores a closed sidebar or that dropdown open |
| Sidebar.ActiveLinkActivatesGroup | frontend/src/components/dashboard/Sidebar.jsx:42-49 | a link that is the current address highlights every group that lists its path |
| Sidebar.GroupActiveBelow | frontend/src/components/dashboard/Sidebar.jsx:47-49 | any address below a group's path highlights the group |
| Sidebar.LeadLinksActivateTheirGroup | frontend/src/components/dashboard/Sidebar.jsx:126-176 | every link of every lead group highlights its own group when it is the current address |
| Sidebar.LeadGroupNamesDistinct | frontend/src/components/dashboard/Sidebar.jsx:126-176 | the lead's groups have pairwise different names, so one open name opens one group |
| Sidebar.BillsOnlyForTreasurer | frontend/src/components/dashboard/Sidebar.jsx:190-207 | the bills pages, to view or to add, are offered exactly to a lead who is the treasurer |
| Sidebar.TreasurerIgnoresCase | frontend/src/components/dashboard/Sidebar.jsx:121 | the treasurer check ignores letter case and needs a profile with a title |
| Sidebar.Bar.constructor | frontend/src/components/dashboard/Sidebar.jsx:8-12 | the sidebar starts with the signed-in role and id, no profile and no open dropdown |
| Sidebar.Bar.ToggleDropdown | frontend/src/components/dashboard/Sidebar.jsx:31-33 | the named dropdown flips between open and closed, every other one is closed, and the profile is kept |
| Sidebar.Bar.FetchStudent | frontend/src/components/dashboard/Sidebar.jsx:14-29 | the first profile owned by the signed-in user becomes the profile; without one, or on a failure, the old profile is kept |
| Sidebar.Bar.Navigation | frontend/src/components/dashboard/Sidebar.jsx:190-207 | the bills link shows exactly when a lead's profile says treasurer |
| CrossChecks.RollNoPassesRegForm | backend/api/serializers/user.py:17 | every roll number the server accepts also passes the sign-up form's format check |
| CrossChecks.RegFormExampleRefused | frontend/src/components/Auth/Regform.jsx:76-89 | the form's own example number passes the form and is refused by the server |
| CrossChecks.SubmittedStatusOutsideChoices | backend/api/serializers/recruitment.py:212-216 | a submitted application's stored status is not one of the status column's choices, and the management page still shows it as Under Review |
| CrossChecks.DefaultStatusShown | backend/api/models/recruitment.py:76-80 | an application stored with the default status is shown as Under Review too |
| CrossChecks.DeleteButtonMatchesAdmin | frontend/src/components/Blogs/BlogCard.jsx:30 | the delete button shows for exactly the callers the server's admin check admits |
| CrossChecks.FinanceMatchesTreasurer | backend/api/permissions.py:39-41 | the sidebar offers the finance pages on the same case-insensitive title test the server applies to the bills |
| CrossChecks.MemberDialogUserEditsDropped | frontend/src/components/members/EditMemberModal.jsx:123-133 | the member dialog's `user.<field>` entries are keys the server's PATCH parsing never reads, so those user edits arrive as nothing to change |

## Left out

- Strings: letter case and whitespace follow ASCII only. Unicode case mapping and Unicode whitespace are not modelled.
- Password hashing and `check_password`: a password is stored as a symbolic `Hash(raw)`, and checking it is equality with that hash.
- Dates are day numbers and times are minutes. Date parsing, time zones and `toLocaleDateString` are not modelled.
- Percentages and averages are exact rationals, not floating point. `Math.round` is floor of the value plus one half.
- Bill amounts are integer cents. The exponent notation and `Infinity` that `parseFloat` accepts are not modelled.
- `backend/api/views.py` and `backend/api/models.py` are legacy duplicates. They are shadowed by the `views/` and `models/` packages, so they are not part of this model.
- Mismatched imports are not modelled, for instance `RecruitmentApplication` against the model's `RecruitmentApplications`, and serializer names the views import but no file defines. The logic is modelled as written.
- Meeting PDFs: the styles, the header, the timestamp footer and the byte stream are not modelled. Only the rows, the counts and the file name are.
- Email sending, OTP generation, token issuance and decoding, logout, and `random.randint` are library calls or nondeterminism. They are not modelled.
- The database is modelled as maps. A uniqueness race between the pre-check and the insert is a concurrency matter and is not modelled.
- The `MAX_IMAGE_SIZE` settings override is not modelled. The default limit is used.
- RecruitmentSerializers: the session serializer reads the keys `start_date`, `end_date`, `interview_date` and `result_date`. Those are not the model's field names, so its ordering checks are modelled as written on those keys.
- RecruitmentModel.SessionCodeFieldExact: Python's `\d` in `^(FA|SP)\d{2}$` matches every Unicode decimal digit, so Django also accepts codes such as "FA٢٤" or "FA２４"; the model accepts only the ASCII digits.
- RecruitmentModel.FieldErrors: inherits the ASCII-only digits of the session code, so it flags "FA٢٤", which Django accepts.
- RecruitmentModel.SessionTable.FullCleanErrors: inherits the ASCII-only digits of the session code in the same way.
- BlogViews.BlogListExact: the `limit` guard `isdigit()` also accepts non-ASCII decimal digits, which `int()` reads ("٣" keeps three posts), and superscript digits, on which `int()` raises ("²" fails the request). The model treats only ASCII digit strings as a limit and lists every post for the others.
- BlogViews.BlogListExact: posts with equal `createdAt` are listed in table order (the insertion sort is stable); `order_by('-createdAt')` leaves that order to the database.
- BlogViews.Put: the ids to delete are the texts sent under the plain `images_to_delete` key; the indexed `images_to_delete[0]` spelling that `ListField` also reads is not modelled, and `int()` reads only ASCII digits here.
- BlogViews: a `student_id` query parameter that `int()` refuses is modelled as a server fault (`ListFault`), not as an exception. The non-ASCII digits `int()` also accepts are not modelled.
- Network calls, `localStorage`, `window.confirm`, `alert`, navigation, console output and React rendering are parameters of the page methods, or are left out.
- Object URLs for image previews are parameters.
- EventsListPage: `JSON.parse` is a parameter. `parseInt` signs and leading whitespace are not modelled.
- EventTeamForm: `ordinalLabel` and the console-only submit are not modelled.
- MarkAttendance: the attendance is a map, so the order in which `Object.entries` lists it is not modelled.
- AttendanceForm: `SetDetail` ignores field names it does not know.
- CreateBillPage: the date picker, the preview and the network outcome are parameters. An amount with more than two decimals passes the page but the server refuses it; the model states each side separately.
- RecruitmentForm: fields the form does not declare are not modelled. The progress is an exact ratio.
- BlogGrid: a post whose `created_by` is null, and a students response that is not an array, are not modelled. The "General" tag is a constant.
- ArticleEditor: `handleImageInsert` is not modelled. The upload it calls, the store's `uploadInlineImage`, is modelled. The prefill failure is a `crashed` flag.
- BlogCard: the confirmation answer, the stored role and the token are parameters.
- TeamPage, TeamsCard: `encodeURIComponent` and `decodeURIComponent` are taken as inverse, so a slug round-trips unchanged. Upper-casing is ASCII only.
- TeamSection: `getTransformStyles` and the resize listener are layout only and are not modelled.
- TrackMembersPage: a members response that is not an array is not modelled. In `SaveSuccess`, the fetch is not awaited; it is modelled by its final state.
- Sidebar: `handleLinkClick` is not modelled. The parsed stored user id is a parameter (`Option<int>`).
- EventListing: images, dates and times are only displayed, so they are not modelled.
- Meetings: the error response sent after a meeting is already saved carries empty errors, as written.
- EventsSerializers.Errors: the serializer lists `description`, `time`, `location` and `total_seats`, which the `Event` model in `backend/api/models/event.py` does not have, so Django REST framework would refuse to build its fields. The declared `agenda` and `event_type_id` fields are not columns of `Event` either, so `Event.objects.create` would refuse them. The model gives those columns the serializer's own reading, as plain supplied values with no type checks.
- EventsSerializers.Errors: the error messages are not modelled, only the refused columns. The `event_type_id` lookup is not checked against the event types.
- Text.IsSpace: white space is the ASCII set (space, tab, line feed, vertical tab, form feed, carriage return). Python's `strip()` and `split()` also treat `\x1c`–`\x1f`, `\x85` and the Unicode spaces as white space, and JavaScript's `trim()` treats the Unicode spaces so. Every trim and split built on it inherits this.
- Formats.IsEmail: domains that are IP literals (`[1.2.3.4]`) and non-ASCII domains that Django converts with IDNA are refused here, although Django accepts them.
- Formats.IsHtmlEmail: the browser strips only ASCII white space, and the vertical tab is not part of it. The model trims with `IsSpace`, which includes the vertical tab.
- UserSerializers.ValidateProfile: the `profile_pic` upload's image checks are not modelled. The picture is a text value.
- UserViews.CurrentText: only the nine modelled user columns and `password` have a current text. `last_login`, `date_joined`, `pk` and the related `student` are real attributes whose `str()` is not "None", but the model reads them as "None".
- UserViews.ParseUserFields: inherits CurrentText's "None", so a resent `user[last_login]`, `user[date_joined]`, `user[pk]` or `user[student]` counts as a change and is passed on. Python drops it when its text is unchanged. The profile serializer ignores those keys, so the stored result is the same.
- UserViews.ParsePatch: inherits the same reading of those attributes through ParseUserFields.
- UserViews.PartialUpdate: the `profile_pic` upload's image checks are not modelled. The picture is a text value.
- UserSerializers.CreateStudent: the nested user form's own field checks are not modelled: email format, role choices, the phone pattern and the lengths. The student columns' lengths are not modelled either.
- BlogSerializers.ChildError: whether Pillow decodes the file and whether its extension is allowed are inputs. The extension message leaves out the extension and the allowed list. Django REST framework reports errors per file index; the model reports the first failing file.
- RecruitmentForm.Page.Submit: whether the LinkedIn text is a valid URL is a parameter, `linkedinIsUrl`, standing for the browser's URL parser.
- UserManager.BuildUser: the `id`, `last_login` and `date_joined` columns are accepted but their values are not kept. A `password` key among the extra keywords cannot occur, because Python binds that keyword to the `password` parameter; the model refuses it as unknown.
- RecruitmentSerializers.Submit: the three nested serializers list fields the tables do not have: `full_name`, `cnic`, `semester`, `cgpa`, `why_join` and `created_at`. Django REST framework refuses such a serializer with `ImproperlyConfigured` when it builds its fields, so as written the endpoint fails before any check. The model assumes each nested serializer's fields are its table's columns and checks them as the columns' own validators would.
- RecruitmentSerializers.Submit: it reports the first refused field only. Django REST framework reports every refused field of every group at once, and every message a field's validators raise. The `current_semester` number, the skill and course lists, and the other preference columns are not checked.
- RecruitmentSerializers.CreateSubmission: the same assumption holds. As written, the serializer's `created_at` names no column, because the table's column is `submitted_at`.
- RecruitmentSerializers.Represent: the same assumption holds. The nested groups are shown through the same mismatched serializers, which as written fail when they build their fields.
- RecruitmentSerializers.ValidateRoles: the roles serializer also lists `why_join`, which the table does not have. The check itself is modelled as written.
- RecruitmentViews.ReviewList: each row is shown through the submission serializer, which as written fails when it builds its fields. Applications with equal submission times may come in any order; the model keeps them in insertion order. Quoted phrases in the search text are not modelled. `int()` on the session filter follows the model of `int()` in Formats.
- RecruitmentViews.ReviewListUnfiltered: same as `RecruitmentViews.ReviewList`.

## Findings

| source | as written | input that shows it | evidently intended | confidence | as-written member | corrected member |
|---|---|---|---|---|---|---|
| backend/api/manager.py:26 | the third default is `set_active`, which is not a field of the user model, so building the user always fails; `models/user.py` does not install this manager as `User.objects`, so in the files shown the defect is latent | any username, email and password | a superuser with `is_staff` and `is_superuser` set | not executed | UserManager.CreateSuperuserAsWritten | UserManager.CreateSuperuser |
| backend/api/permissions.py:34 | `role == LEAD or ADMIN` is truthy for every signed-in caller, because the constant `ADMIN` is a non-empty string | a signed-in student | true only for a lead or an admin | not executed | Permissions.IsLeadOrAdminOnlyChecksSignIn | Permissions.IsLeadOrAdminExact |
| backend/api/views/meeting.py:41 | each attendance entry is tagged under the key `'meeting.py'` instead of `'meeting'`, so the serializer finds no meeting and refuses the entry | any non-empty attendance list | each entry tied to the new meeting's id | not executed | Meetings.CreateMeetingAsWritten | Meetings.CreateMeeting |
| backend/api/serializers/event.py:25 | each image row is created with `**image`, which unpacks an uploaded file as keyword arguments; the event row is already saved, and the first image raises | an event with one image | one image row per uploaded file, linked to the event | not executed | EventSerializers.CreateAsWritten | EventSerializers.Create |
