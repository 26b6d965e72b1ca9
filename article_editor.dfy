/**
 * The article editor: prefilled from the blog when editing, a cover image with its preview,
 * and a submit that checks title, cover and content in turn before saving through the
 * article store.
 */
module ArticleEditor {
  import opened Common
  import opened Text
  import J = Json
  import ArticleStore

  /** The blog being edited, as the page passes it: `imageUrls` are its images' `image_url`s. */
  datatype BlogData = BlogData(title: string, content: string, imageUrls: seq<J.Json>)

  /** What Quill holds when the text area is left empty. */
  const EmptyQuill := "<p><br></p>"

  /** The first check of the submit that fails, if any. */
  datatype Check = TitleMissing | CoverMissing | ContentEmpty | Ready

  /** The submit's checks, in order: a title, a cover (picked or shown), some content. */
  function SubmitCheck(title: string, cover: Option<ArticleStore.File>, preview: J.Json, content: string): (c: Check)
    ensures c == TitleMissing <==> Trim(title) == ""
    ensures c == CoverMissing <==> Trim(title) != "" && cover.None? && !J.Truthy(preview)
    ensures c == Ready <==> (Trim(title) != "" && (cover.Some? || J.Truthy(preview))
                             && Trim(content) != "" && content != EmptyQuill)
  {
    if Trim(title) == "" then TitleMissing
    else if cover.None? && !J.Truthy(preview) then CoverMissing
    else if Trim(content) == "" || content == EmptyQuill then ContentEmpty
    else Ready
  }

  /** A submit that passes its checks also passes the store's own check, so it always sends. */
  lemma ReadyPassesStoreCheck(title: string, cover: Option<ArticleStore.File>, preview: J.Json, content: string)
    requires SubmitCheck(title, cover, preview, content) == Ready
    ensures title != "" && content != ""
  {
    TrimEmpty(title);
    TrimEmpty(content);
  }

  /** The editor's state. */
  class Editor {
    const mode: ArticleStore.Mode
    var title: string
    var content: string
    var cover: Option<ArticleStore.File>
    var preview: J.Json

    constructor (mode: ArticleStore.Mode)
      ensures this.mode == mode && title == "" && content == "" && cover == None && preview == J.JNull
    {
      this.mode := mode;
      title := "";
      content := "";
      cover := None;
      preview := J.JNull;
    }

    /**
     * The prefill effect: when editing a given blog, the title, the content and the first
     * image's address are shown. A blog without images makes the effect throw after the
     * title and content are set; `crashed` says so and the preview is then left as it was.
     */
    method Prefill(blog: Option<BlogData>) returns (crashed: bool)
      modifies this
      ensures crashed <==> mode.EditMode? && blog.Some? && blog.value.imageUrls == []
      ensures mode.EditMode? && blog.Some? ==> title == blog.value.title && content == blog.value.content
      ensures mode.EditMode? && blog.Some? && blog.value.imageUrls != [] ==>
                preview == if J.Truthy(blog.value.imageUrls[0]) then blog.value.imageUrls[0] else J.JNull
      ensures !(mode.EditMode? && blog.Some?) ==> title == old(title) && content == old(content)
      ensures !(mode.EditMode? && blog.Some? && blog.value.imageUrls != []) ==> preview == old(preview)
      ensures cover == old(cover)
    {
      crashed := false;
      if mode.EditMode? && blog.Some? {
        title := blog.value.title;
        content := blog.value.content;
        if blog.value.imageUrls == [] {
          return true;
        }
        var first := blog.value.imageUrls[0];
        preview := if J.Truthy(first) then first else J.JNull;
      }
    }

    /** `handleCoverChange`, with the preview address the browser makes for the file: a picked file replaces the cover. */
    method CoverChange(file: Option<ArticleStore.File>, objectUrl: string)
      modifies this
      ensures file.Some? ==> cover == file && preview == J.JStr(objectUrl)
      ensures file.None? ==> cover == old(cover) && preview == old(preview)
      ensures title == old(title) && content == old(content)
    {
      if file.Some? {
        cover := file;
        preview := J.JStr(objectUrl);
      }
    }

    /** `removeCoverImage`: no file and no preview, so a submit now asks for a cover. */
    method RemoveCover()
      modifies this
      ensures cover == None && preview == J.JNull
      ensures title == old(title) && content == old(content)
      ensures Trim(title) != "" ==> SubmitCheck(title, cover, preview, content) == CoverMissing
    {
      cover := None;
      preview := J.JNull;
    }

    /**
     * `handleSubmit`, given the blog's id and how the save request ends: a failed check
     * sends nothing; otherwise the store saves, and after a successful creation the fields
     * are cleared while an edit keeps them; the page moves on only after a success.
     */
    method Submit(store: ArticleStore.Store, blogId: nat, outcome: Result<J.Json, Option<J.Json>>)
      returns (check: Check, sent: Option<ArticleStore.Request>, navigates: bool)
      modifies this, store
      ensures check == SubmitCheck(old(title), old(cover), old(preview), old(content))
      ensures check != Ready ==> (sent.None? && !navigates && title == old(title) && content == old(content)
                                  && cover == old(cover) && preview == old(preview)
                                  && store.loading == old(store.loading) && store.error == old(store.error))
      ensures check == Ready ==> Saved(old(title), old(content), old(cover), old(preview), store, blogId, outcome, sent, navigates)
    {
      check := SubmitCheck(title, cover, preview, content);
      if check != Ready {
        return check, None, false;
      }
      ReadyPassesStoreCheck(title, cover, preview, content);
      sent, navigates := Save(store, blogId, outcome);
    }

    /**
     * The editor after a save: the store's request was sent, the page moves on exactly when
     * it succeeded, and only a successful creation clears the fields.
     */
    ghost predicate Saved(title0: string, content0: string, cover0: Option<ArticleStore.File>, preview0: J.Json,
                          store: ArticleStore.Store, blogId: nat, outcome: Result<J.Json, Option<J.Json>>,
                          sent: Option<ArticleStore.Request>, navigates: bool)
      reads this, store
    {
      && sent == Some(ArticleStore.SaveRequest(mode, blogId, title0, content0, cover0))
      && (navigates <==> outcome.Ok?)
      && !store.loading
      && (navigates && mode.CreateMode? ==> title == "" && content == "" && cover == None && preview == J.JNull)
      && (!(navigates && mode.CreateMode?) ==>
            title == title0 && content == content0 && cover == cover0 && preview == preview0)
    }

    /** The `try` block of the submit, once the checks have passed. */
    method Save(store: ArticleStore.Store, blogId: nat, outcome: Result<J.Json, Option<J.Json>>)
      returns (sent: Option<ArticleStore.Request>, navigates: bool)
      requires title != "" && content != ""
      modifies this, store
      ensures Saved(old(title), old(content), old(cover), old(preview), store, blogId, outcome, sent, navigates)
    {
      var r;
      sent, r := store.SaveBlog(mode, blogId, title, content, cover, outcome);
      navigates := r.Saved?;
      if navigates && mode.CreateMode? {
        title, content, cover, preview := "", "", None, J.JNull;
      }
    }
  }
}
