/**
 * Blog posts and their images: validation of an upload (title, content and a non-empty list of
 * images, each within the size bound and of an allowed type), creation of a post with one image
 * row per upload, the partial update that deletes only this post's listed images and appends
 * new ones, and the absolute image URL.
 */
module BlogSerializers {
  import opened Common
  import opened Text
  import opened Seqs

  // ---------------------------------------------------------------- images

  /**
   * An uploaded file as the serializer sees it: name, size in bytes, declared content type,
   * whether Pillow can open and verify its bytes as an image, and whether the extension of its
   * name is one Pillow registers.
   */
  datatype Upload = Upload(name: string, size: nat, contentType: Option<string>, decodes: bool, knownExtension: bool)

  const MsgNoName := "No filename could be determined."
  const MsgEmptyFile := "The submitted file is empty."
  const MsgInvalidImage := "Upload a valid image. The file you uploaded was either not an image or a corrupted image."
  const MsgBadExtension := "File extension is not allowed."

  /**
   * The checks of the list's `ImageField` child, in order: the file has a name, is not empty,
   * decodes as an image, and has an image extension.
   */
  function ChildError(img: Upload): (e: Option<string>)
    ensures e.None? <==> img.name != "" && img.size > 0 && img.decodes && img.knownExtension
  {
    if img.name == "" then Some(MsgNoName)
    else if img.size == 0 then Some(MsgEmptyFile)
    else if !img.decodes then Some(MsgInvalidImage)
    else if !img.knownExtension then Some(MsgBadExtension)
    else None
  }

  predicate ChildOk(img: Upload)
  {
    ChildError(img).None?
  }

  /** The first child error of the list, if any. */
  function FirstChildError(images: seq<Upload>): Option<string>
    decreases |images|
  {
    if images == [] then None
    else if ChildError(images[0]).Some? then ChildError(images[0])
    else FirstChildError(images[1..])
  }

  /** No child error exactly when every file is a readable image; a reported error is some file's own. */
  lemma {:induction false} FirstChildErrorExact(images: seq<Upload>)
    ensures FirstChildError(images).None? <==> forall i :: 0 <= i < |images| ==> ChildOk(images[i])
    ensures FirstChildError(images).Some? ==>
              exists k :: 0 <= k < |images| && FirstChildError(images) == ChildError(images[k])
    decreases |images|
  {
    if images != [] {
      FirstChildErrorExact(images[1..]);
      if ChildOk(images[0]) {
        if FirstChildError(images).Some? {
          var k :| 0 <= k < |images[1..]| && FirstChildError(images[1..]) == ChildError(images[1..][k]);
          assert images[k + 1] == images[1..][k];
        }
        if forall i :: 0 <= i < |images[1..]| ==> ChildOk(images[1..][i]) {
          forall i | 0 <= i < |images| ensures ChildOk(images[i]) {
            if i > 0 {
              assert images[i] == images[1..][i - 1];
            }
          }
        } else {
          var i :| 0 <= i < |images[1..]| && !ChildOk(images[1..][i]);
          assert images[i + 1] == images[1..][i];
        }
      }
    }
  }

  /** `MAX_IMAGE_SIZE` with its default of 5 MiB (the settings override is not modelled). */
  const MaxImageSize: nat := 5 * 1024 * 1024
  const AllowedImageTypes: seq<string> := ["image/jpeg", "image/png", "image/webp"]

  predicate SizeOk(img: Upload)
  {
    img.size <= MaxImageSize
  }

  predicate TypeOk(img: Upload)
  {
    img.contentType.Some? && img.contentType.value in AllowedImageTypes
  }

  predicate ImageOk(img: Upload)
  {
    SizeOk(img) && TypeOk(img)
  }

  /** `str()` of an optional text: the text, or `None`. */
  function ShowOption(v: Option<string>): string
  {
    match v
    case Some(s) => s
    case None => "None"
  }

  /** The message for a refused image; the size is tested before the type. */
  function ImageError(img: Upload): (msg: string)
    requires !ImageOk(img)
    ensures StartsWith(msg, img.name)
  {
    if !SizeOk(img) then img.name + " exceeds the max size of " + NatToString(MaxImageSize) + " bytes."
    else img.name + " has invalid content type (" + ShowOption(img.contentType) + ")."
  }

  /** The error of the first refused image, if any. */
  function FirstImageError(images: seq<Upload>): Option<string>
    decreases |images|
  {
    if images == [] then None
    else if !ImageOk(images[0]) then Some(ImageError(images[0]))
    else FirstImageError(images[1..])
  }

  /** No error exactly when every image passes; otherwise the error is that of the first failing image. */
  lemma {:induction false} FirstImageErrorExact(images: seq<Upload>)
    ensures FirstImageError(images).None? <==> forall i :: 0 <= i < |images| ==> ImageOk(images[i])
    ensures FirstImageError(images).Some? ==>
              exists k :: 0 <= k < |images| && !ImageOk(images[k])
                          && (forall j :: 0 <= j < k ==> ImageOk(images[j]))
                          && FirstImageError(images) == Some(ImageError(images[k]))
    decreases |images|
  {
    if images != [] {
      FirstImageErrorExact(images[1..]);
      if ImageOk(images[0]) {
        if FirstImageError(images).Some? {
          var k :| 0 <= k < |images[1..]| && !ImageOk(images[1..][k])
                   && (forall j :: 0 <= j < k ==> ImageOk(images[1..][j]))
                   && FirstImageError(images[1..]) == Some(ImageError(images[1..][k]));
          assert forall j :: 0 <= j < k + 1 ==> ImageOk(images[j]) by {
            forall j | 0 <= j < k + 1 ensures ImageOk(images[j]) {
              if j > 0 {
                assert images[j] == images[1..][j - 1];
              }
            }
          }
          assert images[k + 1] == images[1..][k];
        }
        if forall i :: 0 <= i < |images[1..]| ==> ImageOk(images[1..][i]) {
          forall i | 0 <= i < |images| ensures ImageOk(images[i]) {
            if i > 0 {
              assert images[i] == images[1..][i - 1];
            }
          }
        }
      }
    }
  }

  /** `validate_images`: every image is checked in order and the first failure is raised. */
  method ValidateImages(images: seq<Upload>) returns (r: Result<seq<Upload>, string>)
    ensures FirstImageError(images).None? ==> r == Ok(images)
    ensures FirstImageError(images).Some? ==> r == Err(FirstImageError(images).value)
  {
    var i := 0;
    while i < |images|
      invariant 0 <= i <= |images|
      invariant FirstImageError(images) == FirstImageError(images[i..])
    {
      assert images[i..][1..] == images[i + 1..];
      if images[i].size > MaxImageSize {
        return Err(images[i].name + " exceeds the max size of " + NatToString(MaxImageSize) + " bytes.");
      }
      var contentType := images[i].contentType;
      if contentType.None? || contentType.value !in AllowedImageTypes {
        return Err(images[i].name + " has invalid content type (" + ShowOption(contentType) + ").");
      }
      i := i + 1;
    }
    r := Ok(images);
  }

  // ---------------------------------------------------------------- upload validation

  const MsgRequired := "This field is required."
  const MsgBlank := "This field may not be blank."
  const MsgTitleTooLong := "Ensure this field has no more than 255 characters."
  const MaxTitle: nat := 255

  /** A text field: required, trimmed, not blank, and bounded when `bounded` is set. */
  function TextFieldError(v: Option<string>, bounded: bool): (e: Option<string>)
    ensures e.None? <==> v.Some? && Trim(v.value) != "" && (bounded ==> |Trim(v.value)| <= MaxTitle)
  {
    if v.None? then Some(MsgRequired)
    else if Trim(v.value) == "" then Some(MsgBlank)
    else if bounded && |Trim(v.value)| > MaxTitle then Some(MsgTitleTooLong)
    else None
  }

  /** The form of a blog upload; `images` is the normalised file list. */
  datatype UploadForm = UploadForm(title: Option<string>, content: Option<string>, images: seq<Upload>)

  /**
   * The field error of `images`: the list is required (a missing key and an empty list alike),
   * then each file must be a readable image, and only then does `validate_images` check them.
   */
  function ImagesFieldError(images: seq<Upload>): Option<string>
  {
    if images == [] then Some(MsgRequired)
    else if FirstChildError(images).Some? then FirstChildError(images)
    else FirstImageError(images)
  }

  /** The error map of the three fields. */
  function FieldErrors(title: Option<string>, content: Option<string>, images: Option<string>): (errs: map<string, string>)
    ensures errs.Keys <= {"title", "content", "images"}
    ensures errs == map[] <==> title.None? && content.None? && images.None?
    ensures images.Some? ==> "images" in errs && errs["images"] == images.value
  {
    var t := if title.Some? then map["title" := title.value] else map[];
    var c := if content.Some? then map["content" := content.value] else map[];
    var i := if images.Some? then map["images" := images.value] else map[];
    assert title.Some? ==> "title" in t + c + i;
    assert content.Some? ==> "content" in t + c + i;
    assert images.Some? ==> "images" in t + c + i;
    assert title.None? && content.None? && images.None? ==> t + c + i == map[];
    t + c + i
  }

  /** `BlogUploadSerializer.is_valid()`: the errors, one per failing field. */
  function UploadErrors(f: UploadForm): map<string, string>
  {
    FieldErrors(TextFieldError(f.title, true), TextFieldError(f.content, false), ImagesFieldError(f.images))
  }

  /**
   * An upload is accepted exactly when title and content are present and not blank, the title
   * fits, and there is at least one image, each of them a readable image file within the size
   * bound and of an allowed type.
   */
  lemma UploadErrorsExact(f: UploadForm)
    ensures UploadErrors(f) == map[] <==>
              f.title.Some? && Trim(f.title.value) != "" && |Trim(f.title.value)| <= MaxTitle
              && f.content.Some? && Trim(f.content.value) != ""
              && f.images != [] && forall i :: 0 <= i < |f.images| ==> ChildOk(f.images[i]) && ImageOk(f.images[i])
    ensures f.images == [] ==> "images" in UploadErrors(f) && UploadErrors(f)["images"] == MsgRequired
  {
    FirstChildErrorExact(f.images);
    FirstImageErrorExact(f.images);
    var t := TextFieldError(f.title, true);
    var c := TextFieldError(f.content, false);
    var i := ImagesFieldError(f.images);
    if t.Some? {
      assert "title" in UploadErrors(f);
    } else if c.Some? {
      assert "content" in UploadErrors(f);
    } else if i.Some? {
      assert "images" in UploadErrors(f);
    }
  }

  // ---------------------------------------------------------------- storage

  /** A stored post: title, content, author's user id and its two timestamps. */
  datatype Blog = Blog(title: string, content: string, createdBy: nat, createdAt: int, updatedAt: int)

  /** A stored image: the post it belongs to and the file's storage name. */
  datatype BlogImage = BlogImage(blog: nat, file: string)

  /** `blog_image_upload_path`: images are stored under the post's id. */
  function ImagePath(blog: nat, filename: string): (p: string)
    ensures StartsWith(p, "blog_images/")
  {
    "blog_images/" + NatToString(blog) + "/" + filename
  }

  /** The image rows that `uploads` become for post `blog`, in order. */
  function ImageRows(blog: nat, uploads: seq<Upload>): (rows: seq<BlogImage>)
    ensures |rows| == |uploads|
    ensures forall i :: 0 <= i < |rows| ==> rows[i] == BlogImage(blog, ImagePath(blog, uploads[i].name))
  {
    seq(|uploads|, i requires 0 <= i < |uploads| => BlogImage(blog, ImagePath(blog, uploads[i].name)))
  }

  /** The images left after deleting the rows of post `blog` whose ids are listed in `ids`. */
  function Kept(images: map<nat, BlogImage>, blog: nat, ids: seq<int>): (r: map<nat, BlogImage>)
    ensures forall k :: k in r <==> k in images && !(images[k].blog == blog && k as int in ids)
    ensures forall k :: k in r ==> r[k] == images[k]
  {
    map k | k in images && !(images[k].blog == blog && k as int in ids) :: images[k]
  }

  /** The post and image tables with their identity counters. */
  class BlogDb {
    var blogs: map<nat, Blog>
    var images: map<nat, BlogImage>
    var nextBlog: nat
    var nextImage: nat

    /** Ids stay below their counters and every image belongs to a stored post. */
    ghost predicate Valid()
      reads this
    {
      (forall b :: b in blogs ==> b < nextBlog)
      && (forall k :: k in images ==> k < nextImage && images[k].blog in blogs)
    }

    constructor ()
      ensures Valid() && blogs == map[] && images == map[]
    {
      blogs := map[];
      images := map[];
      nextBlog := 0;
      nextImage := 0;
    }

    /** The loop `for img in images: BlogImage.objects.create(blog=blog, image=img)`. */
    method AddImages(blog: nat, uploads: seq<Upload>)
      requires Valid() && blog in blogs
      modifies this
      ensures Valid()
      ensures blogs == old(blogs) && nextBlog == old(nextBlog)
      ensures images == Appended(old(images), old(nextImage), ImageRows(blog, uploads))
    {
      ghost var rows := ImageRows(blog, uploads);
      var i := 0;
      while i < |uploads|
        invariant 0 <= i <= |uploads|
        invariant Valid() && blogs == old(blogs) && nextBlog == old(nextBlog)
        invariant nextImage == old(nextImage) + i
        invariant images == Appended(old(images), old(nextImage), rows[..i])
      {
        assert rows[..i + 1][..i] == rows[..i];
        images := images[nextImage := BlogImage(blog, ImagePath(blog, uploads[i].name))];
        nextImage := nextImage + 1;
        i := i + 1;
      }
      assert rows[..|uploads|] == rows;
    }

    /**
     * `BlogUploadSerializer.create`: one post owned by the requesting user, then one image row
     * per upload, linked to it.
     */
    method Create(title: string, content: string, user: nat, uploads: seq<Upload>, now: int) returns (id: nat)
      requires Valid()
      modifies this
      ensures Valid()
      ensures id == old(nextBlog) && id !in old(blogs)
      ensures blogs == old(blogs)[id := Blog(title, content, user, now, now)]
      ensures images == Appended(old(images), old(nextImage), ImageRows(id, uploads))
    {
      id := nextBlog;
      blogs := blogs[id := Blog(title, content, user, now, now)];
      nextBlog := nextBlog + 1;
      AddImages(id, uploads);
    }

    /**
     * `BlogUpdateSerializer.update`: absent title and content keep their values; this post's
     * images with listed ids are deleted; the new uploads are appended.
     */
    method Update(id: nat, title: Option<string>, content: Option<string>, uploads: seq<Upload>,
                  toDelete: seq<int>, now: int)
      requires Valid() && id in blogs
      modifies this
      ensures Valid()
      ensures blogs == old(blogs)[id := old(blogs[id]).(title := GetOr(title, old(blogs[id].title)),
                                                         content := GetOr(content, old(blogs[id].content)),
                                                         updatedAt := now)]
      ensures images == Appended(Kept(old(images), id, toDelete), old(nextImage), ImageRows(id, uploads))
    {
      blogs := blogs[id := blogs[id].(title := GetOr(title, blogs[id].title),
                                      content := GetOr(content, blogs[id].content),
                                      updatedAt := now)];
      if toDelete != [] {
        images := Kept(images, id, toDelete);
      } else {
        assert Kept(images, id, toDelete) == images;
      }
      if uploads != [] {
        AddImages(id, uploads);
      }
    }

    /** `blog.delete()`: the post goes, and its images with it. */
    method Delete(id: nat)
      requires Valid() && id in blogs
      modifies this
      ensures Valid()
      ensures blogs == old(blogs) - {id}
      ensures images == map k | k in old(images) && old(images)[k].blog != id :: old(images)[k]
    {
      blogs := blogs - {id};
      images := map k | k in images && images[k].blog != id :: images[k];
    }
  }

  /**
   * What an update does to the images: an old image stays exactly when it belongs to another
   * post or its id is not listed, and the uploads follow under fresh ids.
   */
  lemma UpdateImagesExact(images: map<nat, BlogImage>, next: nat, id: nat, toDelete: seq<int>,
                          uploads: seq<Upload>, k: nat)
    requires forall j :: j in images ==> j < next
    ensures var after := Appended(Kept(images, id, toDelete), next, ImageRows(id, uploads));
            && (k in images ==> (k in after <==> images[k].blog != id || k as int !in toDelete))
            && (k in images && k in after ==> after[k] == images[k])
            && (next <= k < next + |uploads| ==> k in after && after[k].blog == id)
            && (k in after ==> k in images || next <= k < next + |uploads|)
  {
    var kept := Kept(images, id, toDelete);
    AppendedContents(kept, next, ImageRows(id, uploads));
    if next <= k < next + |uploads| {
      assert Appended(kept, next, ImageRows(id, uploads))[next + (k - next)] == ImageRows(id, uploads)[k - next];
    }
  }

  // ---------------------------------------------------------------- representation

  /**
   * `BlogImageSerializer.get_image_url`: without a stored file or without a request there is no
   * URL; otherwise the absolute URL of the file under the media URL.
   */
  function ImageUrl(file: string, requestOrigin: Option<string>, mediaUrl: string): (r: Option<string>)
    ensures r.None? <==> file == "" || requestOrigin.None?
    ensures r.Some? ==> StartsWith(r.value, requestOrigin.value + mediaUrl)
                        && r.value[|requestOrigin.value + mediaUrl|..] == file
  {
    if file != "" && requestOrigin.Some? then Some(requestOrigin.value + mediaUrl + file) else None
  }

  /** With the same origin, different files have different URLs. */
  lemma ImageUrlInjective(a: string, b: string, origin: string, mediaUrl: string)
    requires a != "" && b != ""
    ensures ImageUrl(a, Some(origin), mediaUrl) == ImageUrl(b, Some(origin), mediaUrl) ==> a == b
  {
  }
}
