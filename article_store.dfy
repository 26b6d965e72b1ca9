/**
 * The article store: the request that saves a blog (created or edited), the upload of an
 * image placed inside the text, and the loading flag and error the editor reads.
 */
module ArticleStore {
  import opened Common
  import J = Json

  /** `mode === "edit"` or not. */
  datatype Mode = CreateMode | EditMode

  /** A file picked in the browser. */
  datatype File = File(name: string, size: nat)

  /** A form data value: text, or a file. */
  datatype Entry = Text(text: string) | Upload(file: File)

  /** A request to the server: its method, address and form data. */
  datatype Request = Request(verb: string, url: string, data: seq<(string, Entry)>)

  const MsgRequired := "Title and content are required"
  const MsgSaveFailed := "Failed to save blog"

  /** The form data of `uploadInlineImage`: the file under `image`. */
  function InlineImageData(file: File): (fd: seq<(string, Entry)>)
    ensures |fd| == 1 && fd[0] == ("image", Upload(file))
  {
    [("image", Upload(file))]
  }

  /**
   * `response.data.url`: the address the server gives the uploaded image. Reading a property of
   * a `null` or missing body throws (`None`); any other body that is not an object has no `url`.
   */
  function InlineImageUrl(data: J.Json): (url: Option<J.Json>)
    ensures url.None? <==> data.JNull? || data.JUndefined?
    ensures url.Some? && !data.JObj? ==> url.value == J.JUndefined
  {
    match data
    case JNull => None
    case JUndefined => None
    case JObj(members) => Some(J.Get(members, "url"))
    case _ => Some(J.JUndefined)
  }

  /** A body gives the address of its last `url` member: no later member names `url`. */
  lemma InlineImageUrlExact(url: J.Json, before: seq<(string, J.Json)>, after: seq<(string, J.Json)>)
    requires forall i :: 0 <= i < |after| ==> after[i].0 != "url"
    ensures InlineImageUrl(J.JObj(before + [("url", url)] + after)) == Some(url)
  {
    var members := before + [("url", url)] + after;
    assert members[|before|] == ("url", url);
    assert forall j :: |before| < j < |members| ==> members[j] == after[j - |before| - 1];
  }

  /** The form data of `saveBlog`: the title, the content, and the cover under `images` when one is given. */
  function SaveData(title: string, content: string, cover: Option<File>): (fd: seq<(string, Entry)>)
    ensures |fd| == if cover.Some? then 3 else 2
    ensures fd[0] == ("title", Text(title)) && fd[1] == ("content", Text(content))
    ensures cover.Some? ==> fd[2] == ("images", Upload(cover.value))
  {
    [("title", Text(title)), ("content", Text(content))] + (if cover.Some? then [("images", Upload(cover.value))] else [])
  }

  /** The save request: an edit is a PUT to the blog's own address, a creation a POST to the upload address. */
  function SaveRequest(mode: Mode, blogId: nat, title: string, content: string, cover: Option<File>): (r: Request)
    ensures r.data == SaveData(title, content, cover)
    ensures mode.EditMode? ==> r.verb == "put" && r.url == "/blogs/" + J.IntToString(blogId) + "/edit/"
    ensures mode.CreateMode? ==> r.verb == "post" && r.url == "/blogs/upload/"
  {
    var url := if mode.EditMode? then "/blogs/" + J.IntToString(blogId) + "/edit/" else "/blogs/upload/";
    var verb := if mode.EditMode? then "put" else "post";
    Request(verb, url, SaveData(title, content, cover))
  }

  /** An edit never goes to the creation address. */
  lemma EditNeverCreates(blogId: nat, title: string, content: string, cover: Option<File>)
    ensures SaveRequest(EditMode, blogId, title, content, cover).url != SaveRequest(CreateMode, blogId, title, content, cover).url
  {
    var edit := SaveRequest(EditMode, blogId, title, content, cover).url;
    assert edit[|edit| - 6..] == "/edit/";
    assert "/blogs/upload/"[|"/blogs/upload/"| - 6..] != "/edit/";
  }

  /**
   * The error recorded for a failed save: the response's `message` when truthy, else the
   * response body when truthy, else the default message.
   */
  function ErrorValue(response: Option<J.Json>): (e: J.Json)
    ensures J.Truthy(e)
  {
    var message := if response.Some? && response.value.JObj? then J.Get(response.value.members, "message") else J.JUndefined;
    if J.Truthy(message) then message
    else if response.Some? && J.Truthy(response.value) then response.value
    else J.JStr(MsgSaveFailed)
  }

  /** The message wins over the body, and without a response the default is recorded. */
  lemma ErrorValueExact(members: seq<(string, J.Json)>)
    ensures J.Truthy(J.Get(members, "message")) ==> ErrorValue(Some(J.JObj(members))) == J.Get(members, "message")
    ensures !J.Truthy(J.Get(members, "message")) ==> ErrorValue(Some(J.JObj(members))) == J.JObj(members)
    ensures ErrorValue(None) == J.JStr(MsgSaveFailed)
  {
  }

  /** How `saveBlog` ends: the response body, the missing-fields error, or the request's failure. */
  datatype SaveResult = Saved(data: J.Json) | Missing(message: string) | Failed(response: Option<J.Json>)

  /** The store's state. */
  class Store {
    var loading: bool
    var error: J.Json

    constructor ()
      ensures !loading && error == J.JNull
    {
      loading := false;
      error := J.JNull;
    }

    /**
     * `saveBlog`, given how the request ends: without a title or content it fails before
     * any request and changes nothing; otherwise it sends the save request, returns the
     * response body or records the error and passes the failure on. Loading ends false.
     */
    method SaveBlog(mode: Mode, blogId: nat, title: string, content: string, cover: Option<File>,
                    outcome: Result<J.Json, Option<J.Json>>)
      returns (sent: Option<Request>, r: SaveResult)
      modifies this
      ensures sent.None? <==> title == "" || content == ""
      ensures sent.None? ==> r == Missing(MsgRequired) && loading == old(loading) && error == old(error)
      ensures sent.Some? ==> sent.value == SaveRequest(mode, blogId, title, content, cover) && !loading
      ensures sent.Some? && outcome.Ok? ==> r == Saved(outcome.value) && error == J.JNull
      ensures sent.Some? && outcome.Err? ==> r == Failed(outcome.error) && error == ErrorValue(outcome.error)
    {
      if title == "" || content == "" {
        return None, Missing(MsgRequired);
      }
      sent := Some(SaveRequest(mode, blogId, title, content, cover));
      loading, error := true, J.JNull;
      match outcome {
        case Ok(data) =>
          r := Saved(data);
        case Err(response) =>
          error := ErrorValue(response);
          r := Failed(response);
      }
      loading := false;
    }
  }
}
