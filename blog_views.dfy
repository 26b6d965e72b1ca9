/**
 * The blog endpoints: upload (file-list normalisation, validation, creation), the list ordered
 * newest first with an optional author filter and digit-only limit, the partial edit and the
 * deletion.
 */
module BlogViews {
  import opened Common
  import opened Text
  import opened Seqs
  import opened Formats
  import opened BlogSerializers

  // ---------------------------------------------------------------- upload

  /**
   * The uploaded files by form key. A key is present only with at least one file, as in the
   * framework's multi-value dictionary.
   */
  type Files = m: map<string, seq<Upload>> | forall k :: k in m ==> m[k] != [] witness map[]

  /** `request.FILES.getlist(key)`: every file under `key`, or none. */
  function GetList(files: Files, key: string): seq<Upload>
  {
    if key in files then files[key] else []
  }

  /**
   * The normalisation of `post`: the list under `images`. Its single-file fallback (a key present
   * but an empty list) cannot fire, as `NormalizeFallbackUnreachable` shows, and adds nothing.
   */
  function NormalizeImages(files: Files): (r: seq<Upload>)
  {
    GetList(files, "images")
  }

  /** A present key always yields files, so the fallback's condition never holds; one file gives a one-element list. */
  lemma NormalizeFallbackUnreachable(files: Files, img: Upload)
    ensures !(GetList(files, "images") == [] && "images" in files)
    ensures "images" in files && files["images"] == [img] ==> NormalizeImages(files) == [img]
    ensures "images" !in files ==> NormalizeImages(files) == []
  {
  }

  /** A response status with the `status` word of its envelope. */
  datatype Reply = Reply(code: nat, ok: bool)

  /** `is_valid()` of the upload serializer: the field checks, with `validate_images` run on a non-empty list. */
  method CollectUploadErrors(title: Option<string>, content: Option<string>, images: seq<Upload>)
    returns (errors: map<string, string>)
    ensures errors == UploadErrors(UploadForm(title, content, images))
  {
    var imagesError: Option<string> := None;
    if images == [] {
      imagesError := Some(MsgRequired);
    } else if FirstChildError(images).Some? {
      imagesError := FirstChildError(images);
    } else {
      var checked := ValidateImages(images);
      if checked.Err? {
        imagesError := Some(checked.error);
      }
    }
    assert imagesError == ImagesFieldError(images);
    errors := FieldErrors(TextFieldError(title, true), TextFieldError(content, false), imagesError);
  }

  /**
   * `BlogUploadView.post`: a valid upload creates the post and its images and answers 201; an
   * invalid one answers 400 and stores nothing.
   */
  method Post(db: BlogDb, user: nat, title: Option<string>, content: Option<string>, files: Files, now: int)
    returns (r: Reply, errors: map<string, string>)
    requires db.Valid()
    modifies db
    ensures db.Valid()
    ensures var f := UploadForm(title, content, NormalizeImages(files));
            && errors == UploadErrors(f)
            && (r == Reply(201, true) <==> errors == map[])
            && (errors != map[] ==> r == Reply(400, false) && db.blogs == old(db.blogs) && db.images == old(db.images))
            && (errors == map[] ==>
                  var id := old(db.nextBlog);
                  && title.Some? && content.Some?
                  && db.blogs == old(db.blogs)[id := Blog(Trim(title.value), Trim(content.value), user, now, now)]
                  && db.images == Appended(old(db.images), old(db.nextImage), ImageRows(id, NormalizeImages(files))))
  {
    var images := NormalizeImages(files);
    errors := CollectUploadErrors(title, content, images);
    if errors != map[] {
      return Reply(400, false), errors;
    }
    UploadErrorsExact(UploadForm(title, content, images));
    var id := db.Create(Trim(title.value), Trim(content.value), user, images, now);
    r := Reply(201, true);
  }

  // ---------------------------------------------------------------- list

  /** A stored post with its id, as a row of the table. */
  type Entry = (nat, Blog)

  predicate NewestFirst(s: seq<Entry>)
  {
    forall i, j :: 0 <= i < j < |s| ==> s[i].1.createdAt >= s[j].1.createdAt
  }

  /** Inserts `x` before the first entry that is not newer than it. */
  function Insert(x: Entry, s: seq<Entry>): seq<Entry>
    decreases |s|
  {
    if s == [] || x.1.createdAt >= s[0].1.createdAt then [x] + s
    else [s[0]] + Insert(x, s[1..])
  }

  lemma {:induction false} InsertExact(x: Entry, s: seq<Entry>)
    requires NewestFirst(s)
    ensures NewestFirst(Insert(x, s)) && multiset(Insert(x, s)) == multiset(s) + multiset{x}
    decreases |s|
  {
    if s != [] && x.1.createdAt < s[0].1.createdAt {
      var tail := s[1..];
      var rest := Insert(x, tail);
      InsertExact(x, tail);
      assert s == [s[0]] + tail;
      HeadBoundsInsert(x, s, rest);
      ConsNewestFirst(s[0], rest);
      assert multiset([s[0]] + rest) == multiset{s[0]} + multiset(rest);
    }
  }

  /** An entry newer than `x` and at the head of a sorted list is at least as new as `x` inserted in its tail. */
  lemma HeadBoundsInsert(x: Entry, s: seq<Entry>, rest: seq<Entry>)
    requires NewestFirst(s) && s != [] && x.1.createdAt < s[0].1.createdAt
    requires multiset(rest) == multiset(s[1..]) + multiset{x}
    ensures forall i :: 0 <= i < |rest| ==> s[0].1.createdAt >= rest[i].1.createdAt
  {
    var tail := s[1..];
    forall i | 0 <= i < |rest|
      ensures s[0].1.createdAt >= rest[i].1.createdAt
    {
      assert rest[i] in multiset(rest);
      if rest[i] != x {
        assert rest[i] in multiset(tail);
        var k :| 0 <= k < |tail| && tail[k] == rest[i];
        assert s[k + 1] == rest[i];
      }
    }
  }

  /** A sorted list stays sorted under a head at least as new as each of its entries. */
  lemma ConsNewestFirst(h: Entry, rest: seq<Entry>)
    requires NewestFirst(rest)
    requires forall i :: 0 <= i < |rest| ==> h.1.createdAt >= rest[i].1.createdAt
    ensures NewestFirst([h] + rest)
  {
    var r := [h] + rest;
    forall i, j | 0 <= i < j < |r|
      ensures r[i].1.createdAt >= r[j].1.createdAt
    {
      assert r[j] == rest[j - 1];
      if i > 0 {
        assert r[i] == rest[i - 1];
      }
    }
  }

  /** `order_by('-createdAt')`: the table ordered newest first. */
  function SortNewestFirst(s: seq<Entry>): (r: seq<Entry>)
    ensures NewestFirst(r) && multiset(r) == multiset(s)
    decreases |s|
  {
    if s == [] then []
    else
      assert s == [s[0]] + s[1..];
      InsertExact(s[0], SortNewestFirst(s[1..]));
      Insert(s[0], SortNewestFirst(s[1..]))
  }

  /** `queryset[:n]`. */
  function Take(s: seq<Entry>, n: nat): (r: seq<Entry>)
    ensures |r| <= n && |r| <= |s| && r == s[..|r|]
    ensures |s| <= n ==> r == s
  {
    if n >= |s| then s else s[..n]
  }

  /** The list, or the server error of a non-numeric author id. */
  datatype Listing = Listed(entries: seq<Entry>) | ListFault

  /** A non-empty `student_id` parameter, which the author filter reads with `int()`. */
  predicate AuthorGiven(studentId: Option<string>)
  {
    studentId.Some? && studentId.value != ""
  }

  /**
   * `BlogListAPIView.get_queryset`: newest first; a non-empty `student_id` keeps the posts of
   * the author whose id `int()` reads from it, and one `int()` refuses is a server fault; a
   * non-empty all-digit `limit` keeps that many.
   */
  function BlogList(table: seq<Entry>, studentId: Option<string>, limit: Option<string>): Listing
  {
    var sorted := SortNewestFirst(table);
    if AuthorGiven(studentId) && PyInt(studentId.value).None? then ListFault
    else
      var byAuthor :=
        if AuthorGiven(studentId) then
          var author := PyInt(studentId.value).value;
          Filter(sorted, (e: Entry) => e.1.createdBy as int == author)
        else sorted;
      if limit.Some? && limit.value != "" && AllDigits(limit.value) then Listed(Take(byAuthor, DigitsValue(limit.value)))
      else Listed(byAuthor)
  }

  /** Filtering and taking a prefix keep the newest-first order. */
  lemma FilterNewestFirst(s: seq<Entry>, p: Entry -> bool)
    requires NewestFirst(s)
    ensures NewestFirst(Filter(s, p))
    decreases |s|
  {
    if s != [] {
      FilterNewestFirst(s[1..], p);
      if p(s[0]) {
        forall e | e in Filter(s[1..], p) ensures s[0].1.createdAt >= e.1.createdAt {
          FilterMembership(s[1..], p, e);
        }
      }
    }
  }

  /**
   * The listing is newest first; every entry comes from the table and, under an author filter,
   * has that author; a digit-only limit bounds its length; without filter and limit it holds
   * every post.
   */
  lemma BlogListExact(table: seq<Entry>, studentId: Option<string>, limit: Option<string>, e: Entry)
    ensures BlogList(table, studentId, limit).ListFault? <==> AuthorGiven(studentId) && PyInt(studentId.value).None?
    ensures BlogList(table, studentId, limit).Listed? ==>
              var r := BlogList(table, studentId, limit).entries;
              && NewestFirst(r)
              && (e in r ==> e in table)
              && (e in r && AuthorGiven(studentId) ==> Some(e.1.createdBy as int) == PyInt(studentId.value))
              && (limit.None? && AuthorGiven(studentId) && e in table
                  ==> (e in r <==> Some(e.1.createdBy as int) == PyInt(studentId.value)))
              && (limit.Some? && limit.value != "" && AllDigits(limit.value) ==> |r| <= DigitsValue(limit.value))
    ensures !AuthorGiven(studentId) && (limit.None? || !AllDigits(limit.value) || limit.value == "") ==>
              BlogList(table, studentId, limit) == Listed(SortNewestFirst(table))
              && multiset(BlogList(table, studentId, limit).entries) == multiset(table)
  {
    var sorted := SortNewestFirst(table);
    assert e in sorted <==> e in table by {
      assert e in sorted <==> e in multiset(sorted);
      assert e in table <==> e in multiset(table);
    }
    if AuthorGiven(studentId) && PyInt(studentId.value).Some? {
      var author := PyInt(studentId.value).value;
      var p := (x: Entry) => x.1.createdBy as int == author;
      FilterNewestFirst(sorted, p);
      FilterMembership(sorted, p, e);
      var byAuthor := Filter(sorted, p);
      if limit.Some? && limit.value != "" && AllDigits(limit.value) {
        var r := Take(byAuthor, DigitsValue(limit.value));
        assert e in r ==> e in byAuthor;
      }
    } else if limit.Some? && limit.value != "" && AllDigits(limit.value) {
      var r := Take(sorted, DigitsValue(limit.value));
      assert e in r ==> e in sorted;
    }
  }

  /** An author id that `int()` reads as negative, such as `-1`, matches no author, so the list is empty. */
  lemma BlogListNegativeAuthor(table: seq<Entry>, studentId: Option<string>, limit: Option<string>)
    requires AuthorGiven(studentId) && PyInt(studentId.value).Some? && PyInt(studentId.value).value < 0
    ensures BlogList(table, studentId, limit) == Listed([])
  {
    var r := BlogList(table, studentId, limit);
    BlogListExact(table, studentId, limit, if r.Listed? && r.entries != [] then r.entries[0] else (0, Blog("", "", 0, 0, 0)));
  }

  // ---------------------------------------------------------------- edit and delete

  /** DRF's `IntegerField` refusal. */
  const MsgInvalidInteger := "A valid integer is required."

  /** A text that the `IntegerField` child reads. */
  predicate IsIdText(t: string)
  {
    IntegerFieldValue(t).Some?
  }

  /**
   * The texts sent under `images_to_delete`, each read by the `ListField`'s `IntegerField`
   * child; `None` when one of them is refused.
   */
  function DeleteIds(texts: seq<string>): (r: Option<seq<int>>)
    ensures r.Some? <==> forall i :: 0 <= i < |texts| ==> IsIdText(texts[i])
    ensures r.Some? ==> |r.value| == |texts|
                        && forall i :: 0 <= i < |texts| ==> Some(r.value[i]) == IntegerFieldValue(texts[i])
  {
    if forall i :: 0 <= i < |texts| ==> IsIdText(texts[i]) then
      Some(seq(|texts|, i requires 0 <= i < |texts| && IsIdText(texts[i]) => IntegerFieldValue(texts[i]).value))
    else None
  }

  /**
   * The errors of the fields a partial edit checks itself: only the fields sent are checked; new
   * files must be readable images, but their size and type are not checked.
   */
  function EditFieldErrors(title: Option<string>, content: Option<string>, images: seq<Upload>): (errs: map<string, string>)
    ensures errs.Keys <= {"title", "content", "images"}
  {
    FieldErrors(if title.Some? then TextFieldError(title, true) else None,
                if content.Some? then TextFieldError(content, false) else None,
                FirstChildError(images))
  }

  /** The errors of a partial edit: the fields' own, and every id to delete must read as an integer. */
  function EditErrors(title: Option<string>, content: Option<string>, images: seq<Upload>,
                      toDelete: seq<string>): (errs: map<string, string>)
    ensures errs.Keys <= {"title", "content", "images", "images_to_delete"}
    ensures "images_to_delete" in errs <==> DeleteIds(toDelete).None?
    ensures errs == map[] <==> EditFieldErrors(title, content, images) == map[] && DeleteIds(toDelete).Some?
  {
    var base := EditFieldErrors(title, content, images);
    if DeleteIds(toDelete).None? then
      assert "images_to_delete" in base["images_to_delete" := MsgInvalidInteger];
      base["images_to_delete" := MsgInvalidInteger]
    else base
  }

  /**
   * An edit is accepted exactly when each text sent is not blank, the title fits, every new
   * file is a readable image and every id to delete reads as an integer; absent fields always pass.
   */
  lemma EditErrorsExact(title: Option<string>, content: Option<string>, images: seq<Upload>, toDelete: seq<string>)
    ensures EditErrors(title, content, images, toDelete) == map[] <==>
              (title.Some? ==> Trim(title.value) != "" && |Trim(title.value)| <= MaxTitle)
              && (content.Some? ==> Trim(content.value) != "")
              && (forall i :: 0 <= i < |images| ==> ChildOk(images[i]))
              && (forall i :: 0 <= i < |toDelete| ==> IsIdText(toDelete[i]))
    ensures EditErrors(None, None, [], []) == map[]
  {
    FirstChildErrorExact(images);
  }

  /** An id to delete that is a word makes the edit fail on `images_to_delete`. */
  lemma WordIdRefused(title: Option<string>, content: Option<string>, images: seq<Upload>)
    ensures "images_to_delete" in EditErrors(title, content, images, ["abc"])
  {
    IntegerFieldRefusesWord();
    assert !IsIdText(["abc"][0]);
  }

  /** The trimmed value of an optional text field. */
  function TrimOption(v: Option<string>): Option<string>
  {
    match v
    case Some(s) => Some(Trim(s))
    case None => None
  }

  /**
   * `BlogEditView.put`: 404 for an unknown post; a valid partial edit updates it and answers
   * 200; an invalid one answers 400 and changes nothing.
   */
  method Put(db: BlogDb, pk: nat, title: Option<string>, content: Option<string>, files: Files,
             toDelete: seq<string>, now: int) returns (r: Reply)
    requires db.Valid()
    modifies db
    ensures db.Valid()
    ensures r.code == 404 <==> pk !in old(db.blogs)
    ensures r.code == 200 <==> pk in old(db.blogs) && EditErrors(title, content, GetList(files, "images"), toDelete) == map[]
    ensures r.code != 200 ==> db.blogs == old(db.blogs) && db.images == old(db.images)
    ensures r.code == 200 ==>
              DeleteIds(toDelete).Some?
              && db.blogs == old(db.blogs)[pk := old(db.blogs[pk]).(title := GetOr(TrimOption(title), old(db.blogs[pk].title)),
                                                                 content := GetOr(TrimOption(content), old(db.blogs[pk].content)),
                                                                 updatedAt := now)]
              && db.images == Appended(Kept(old(db.images), pk, DeleteIds(toDelete).value), old(db.nextImage),
                                       ImageRows(pk, GetList(files, "images")))
  {
    if pk !in db.blogs {
      return Reply(404, false);
    }
    if EditErrors(title, content, GetList(files, "images"), toDelete) != map[] {
      return Reply(400, false);
    }
    db.Update(pk, TrimOption(title), TrimOption(content), GetList(files, "images"), DeleteIds(toDelete).value, now);
    r := Reply(200, true);
  }

  /** `BlogDeleteView.delete`: 404 for an unknown post, else the post and its images go and 200 is answered. */
  method Delete(db: BlogDb, pk: nat) returns (r: Reply)
    requires db.Valid()
    modifies db
    ensures db.Valid()
    ensures r == (if pk in old(db.blogs) then Reply(200, true) else Reply(404, false))
    ensures pk !in old(db.blogs) ==> db.blogs == old(db.blogs) && db.images == old(db.images)
    ensures pk in old(db.blogs) ==>
              db.blogs == old(db.blogs) - {pk}
              && forall k :: k in db.images <==> k in old(db.images) && old(db.images)[k].blog != pk
  {
    if pk !in db.blogs {
      return Reply(404, false);
    }
    db.Delete(pk);
    r := Reply(200, true);
  }
}
