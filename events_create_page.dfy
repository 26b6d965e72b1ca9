/**
 * The event creation page: a title, a content and a date, and a list of picked images each
 * with its preview; a submit needs at least one image and sends every image, in order.
 */
module EventsCreatePage {
  import opened Common
  import opened Seqs
  import ArticleStore

  type File = ArticleStore.File
  type Entry = ArticleStore.Entry

  /** The form data the submit builds: the three texts, then every image under `images`, in order. */
  function EventData(title: string, content: string, date: string, images: seq<File>): seq<(string, Entry)>
  {
    [("title", ArticleStore.Text(title)), ("content", ArticleStore.Text(content)), ("date", ArticleStore.Text(date))]
    + seq(|images|, k requires 0 <= k < |images| => ("images", ArticleStore.Upload(images[k])))
  }

  /** The files a form data carries under `images`, in order: what the server reads back. */
  function ImagesOf(fd: seq<(string, Entry)>): (files: seq<File>)
    ensures |files| <= |fd|
  {
    if fd == [] then []
    else (if fd[0].0 == "images" && fd[0].1.Upload? then [fd[0].1.file] else []) + ImagesOf(fd[1..])
  }

  lemma {:induction false} ImagesOfAppend(a: seq<(string, Entry)>, b: seq<(string, Entry)>)
    ensures ImagesOf(a + b) == ImagesOf(a) + ImagesOf(b)
    decreases |a|
  {
    if a != [] {
      ImagesOfAppend(a[1..], b);
      assert (a + b)[0] == a[0];
      assert (a + b)[1..] == a[1..] + b;
    } else {
      assert a + b == b;
    }
  }

  /** Entries that each carry one file under `images` give those files back, in order. */
  lemma {:induction false} ImagesOfUploads(images: seq<File>)
    ensures ImagesOf(seq(|images|, k requires 0 <= k < |images| => ("images", ArticleStore.Upload(images[k])))) == images
    decreases |images|
  {
    var ups := seq(|images|, k requires 0 <= k < |images| => ("images", ArticleStore.Upload(images[k])));
    if images != [] {
      ImagesOfUploads(images[1..]);
      assert ups[1..] == seq(|images[1..]|, k requires 0 <= k < |images[1..]| => ("images", ArticleStore.Upload(images[1..][k])));
    }
  }

  /**
   * The submitted form data starts with the title, the content and the date, and the server
   * reads back under `images` exactly the picked files, in the order they were picked.
   */
  lemma EventDataRoundTrip(title: string, content: string, date: string, images: seq<File>)
    ensures var fd := EventData(title, content, date, images);
            |fd| == 3 + |images|
            && fd[0] == ("title", ArticleStore.Text(title)) && fd[1] == ("content", ArticleStore.Text(content))
            && fd[2] == ("date", ArticleStore.Text(date))
            && ImagesOf(fd) == images
  {
    var head := [("title", ArticleStore.Text(title)), ("content", ArticleStore.Text(content)), ("date", ArticleStore.Text(date))];
    var ups := seq(|images|, k requires 0 <= k < |images| => ("images", ArticleStore.Upload(images[k])));
    ImagesOfAppend(head, ups);
    assert ImagesOf(head[2..]) == [] by { assert head[2..][1..] == []; }
    assert ImagesOf(head[1..]) == [] by { assert head[1..][1..] == head[2..]; }
    assert ImagesOf(head) == [];
    ImagesOfUploads(images);
  }

  /** The page's state: the texts, the picked files and their previews, side by side. */
  class Page {
    var title: string
    var content: string
    var date: string
    var images: seq<File>
    var previewUrls: seq<string>

    /** Each picked file has its preview at the same position. */
    predicate Valid()
      reads this
    {
      |images| == |previewUrls|
    }

    constructor ()
      ensures Valid() && title == "" && content == "" && date == "" && images == [] && previewUrls == []
    {
      title, content, date := "", "", "";
      images, previewUrls := [], [];
    }

    /** Typing in the three inputs. */
    method SetTexts(title: string, content: string, date: string)
      modifies this
      ensures this.title == title && this.content == content && this.date == date
      ensures images == old(images) && previewUrls == old(previewUrls)
    {
      this.title, this.content, this.date := title, content, date;
    }

    /** `handleImageChange`, with the preview address the browser makes for each new file. */
    method AddImages(files: seq<File>, urls: seq<string>)
      requires Valid() && |urls| == |files|
      modifies this
      ensures Valid()
      ensures images == old(images) + files && previewUrls == old(previewUrls) + urls
      ensures title == old(title) && content == old(content) && date == old(date)
    {
      images := images + files;
      previewUrls := previewUrls + urls;
    }

    /** `removeImage(index)`: the file and its preview leave together, so the pairing holds. */
    method RemoveImage(index: nat)
      requires Valid()
      modifies this
      ensures Valid()
      ensures images == RemoveAt(old(images), index) && previewUrls == RemoveAt(old(previewUrls), index)
      ensures forall k :: 0 <= k < |images| ==>
                var j := if k < index then k else k + 1;
                j < |old(images)| && images[k] == old(images)[j] && previewUrls[k] == old(previewUrls)[j]
      ensures title == old(title) && content == old(content) && date == old(date)
    {
      images := RemoveAt(images, index);
      previewUrls := RemoveAt(previewUrls, index);
    }

    /** The `images.forEach` that appends each file to the form data. */
    method BuildData() returns (fd: seq<(string, Entry)>)
      ensures fd == EventData(title, content, date, images)
    {
      fd := [("title", ArticleStore.Text(title)), ("content", ArticleStore.Text(content)), ("date", ArticleStore.Text(date))];
      var i := 0;
      while i < |images|
        invariant 0 <= i <= |images|
        invariant |fd| == 3 + i
        invariant fd[..3] == EventData(title, content, date, images)[..3]
        invariant forall k :: 0 <= k < i ==> fd[3 + k] == ("images", ArticleStore.Upload(images[k]))
      {
        fd := fd + [("images", ArticleStore.Upload(images[i]))];
        i := i + 1;
      }
    }

    /**
     * `handleSubmit`, given whether the server accepts the event: without images nothing is
     * sent; otherwise the form data goes out and the page moves on exactly when it is accepted.
     */
    method HandleSubmit(accepted: bool) returns (sent: Option<seq<(string, Entry)>>, navigates: bool)
      ensures sent.None? <==> images == []
      ensures sent.Some? ==> sent.value == EventData(title, content, date, images) && ImagesOf(sent.value) == images
      ensures navigates <==> sent.Some? && accepted
    {
      if |images| == 0 {
        return None, false;
      }
      var fd := BuildData();
      EventDataRoundTrip(title, content, date, images);
      sent := Some(fd);
      navigates := accepted;
    }

    /**
     * Pressing "Create Event": the browser blocks the submission while the required title,
     * content or date is empty; only then does `handleSubmit` run.
     */
    method Submit(accepted: bool) returns (sent: Option<seq<(string, Entry)>>, navigates: bool)
      ensures sent.Some? <==> BrowserAccepts(title, content, date) && images != []
      ensures sent.Some? ==> sent.value == EventData(title, content, date, images) && ImagesOf(sent.value) == images
      ensures navigates <==> sent.Some? && accepted
    {
      if !BrowserAccepts(title, content, date) {
        return None, false;
      }
      sent, navigates := HandleSubmit(accepted);
    }
  }

  /**
   * The browser's check of the three `required` inputs: each has a value (a date input's value
   * is empty until a date is picked).
   */
  predicate BrowserAccepts(title: string, content: string, date: string)
  {
    title != "" && content != "" && date != ""
  }
}
