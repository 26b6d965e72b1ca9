/**
 * The blog grid: the blogs listed by the server turned into cards, optionally kept to the
 * signed-in user's own, shown twelve at a time, and dropped when a card reports a delete.
 */
module BlogGrid {
  import opened Common
  import opened Seqs
  import J = Json

  /** A blog as the server lists it; `imageUrls` are the `image_url`s of its images, in order. */
  datatype ListedBlog = ListedBlog(id: nat, title: string, createdBy: string, creatorId: int, user: J.Json,
                                   imageUrls: seq<J.Json>)

  /** A student as the public student list gives it. */
  datatype PublicStudent = PublicStudent(userId: int, fullName: J.Json, profilePic: J.Json)

  /** What a card is given. */
  datatype Card = Card(id: nat, title: string, author: string, authorId: J.Json, image: J.Json,
                       authorImg: J.Json, authorName: J.Json)

  const Unknown := "Unknown"
  const PageSize := 12
  const MsgLoadFailed := "Failed to load blogs"

  /** `s => s.user_id === blog.created_by.id`. */
  function ByUser(creatorId: int): PublicStudent -> bool
  {
    (s: PublicStudent) => s.userId == creatorId
  }

  /** `value || fallback` on text. */
  function TextOr(value: string, fallback: string): string
  {
    if value != "" then value else fallback
  }

  /** One listed blog as a card, with the author's profile found among the students. */
  function ToCard(blog: ListedBlog, students: seq<PublicStudent>): (c: Card)
    ensures c.id == blog.id && c.title == blog.title
    ensures c.author == if blog.createdBy != "" then blog.createdBy else Unknown
    ensures c.authorId == if blog.creatorId != 0 then J.JNum(blog.creatorId) else blog.user
    ensures c.image == if blog.imageUrls != [] then blog.imageUrls[0] else J.JNull
  {
    var profile := FindFirst(students, ByUser(blog.creatorId));
    Card(blog.id, blog.title, TextOr(blog.createdBy, Unknown),
         if blog.creatorId != 0 then J.JNum(blog.creatorId) else blog.user,
         if |blog.imageUrls| > 0 then blog.imageUrls[0] else J.JNull,
         if profile.Some? && J.Truthy(profile.value.profilePic) then profile.value.profilePic else J.JNull,
         if profile.Some? && J.Truthy(profile.value.fullName) then profile.value.fullName
         else J.JStr(TextOr(blog.createdBy, Unknown)))
  }

  /**
   * The author's picture and name come from the first student whose user id is the
   * creator's; without one the picture is `null` and the name falls back to `createdBy`.
   */
  lemma ToCardProfile(blog: ListedBlog, students: seq<PublicStudent>, i: nat)
    requires i < |students| && students[i].userId == blog.creatorId
    requires forall k :: 0 <= k < i ==> students[k].userId != blog.creatorId
    ensures J.Truthy(students[i].profilePic) ==> ToCard(blog, students).authorImg == students[i].profilePic
    ensures J.Truthy(students[i].fullName) ==> ToCard(blog, students).authorName == students[i].fullName
  {
    FindFirstAt(students, ByUser(blog.creatorId), i);
  }

  lemma ToCardNoProfile(blog: ListedBlog, students: seq<PublicStudent>)
    requires forall k :: 0 <= k < |students| ==> students[k].userId != blog.creatorId
    ensures ToCard(blog, students).authorImg == J.JNull
    ensures ToCard(blog, students).authorName == J.JStr(if blog.createdBy != "" then blog.createdBy else Unknown)
  {
  }

  /** `blogsData.map(...)`. */
  function Cards(blogs: seq<ListedBlog>, students: seq<PublicStudent>): (r: seq<Card>)
    ensures |r| == |blogs|
    ensures forall i :: 0 <= i < |blogs| ==> r[i] == ToCard(blogs[i], students)
  {
    seq(|blogs|, i requires 0 <= i < |blogs| => ToCard(blogs[i], students))
  }

  /** `b => String(b.authorId) === String(user_id)`. */
  function ByAuthor(userId: J.Json): Card -> bool
  {
    (b: Card) => J.Display(b.authorId) == J.Display(userId)
  }

  /** The cards kept: with the user filter and a signed-in user, that user's own; otherwise all. */
  function Kept(cards: seq<Card>, filterByUser: bool, userId: J.Json): (r: seq<Card>)
  {
    if filterByUser && J.Truthy(userId) then Filter(cards, ByAuthor(userId)) else cards
  }

  /**
   * With the filter on, exactly the cards whose author id reads as the user's id are kept,
   * in order; with it off or no user signed in, every card is kept.
   */
  lemma KeptExact(cards: seq<Card>, filterByUser: bool, userId: J.Json)
    ensures IsSubsequence(Kept(cards, filterByUser, userId), cards)
    ensures filterByUser && J.Truthy(userId) ==>
              forall c :: c in Kept(cards, filterByUser, userId) <==> c in cards && J.Display(c.authorId) == J.Display(userId)
    ensures !(filterByUser && J.Truthy(userId)) ==> Kept(cards, filterByUser, userId) == cards
  {
    if filterByUser && J.Truthy(userId) {
      FilterIsSubsequence(cards, ByAuthor(userId));
      forall c
        ensures c in Kept(cards, filterByUser, userId) <==> c in cards && J.Display(c.authorId) == J.Display(userId)
      {
        FilterMembership(cards, ByAuthor(userId), c);
      }
    } else {
      SubsequenceRefl(cards);
    }
  }

  /** `b => b.id !== deletedId`. */
  function WithoutId(id: nat): Card -> bool
  {
    (b: Card) => b.id != id
  }

  /** The grid's state. */
  class Grid {
    var blogs: seq<Card>
    var loading: bool
    var error: Option<string>
    var visibleCount: nat

    constructor ()
      ensures blogs == [] && loading && error == None && visibleCount == PageSize
    {
      blogs := [];
      loading := true;
      error := None;
      visibleCount := PageSize;
    }

    /**
     * `fetchBlogs`, given the server's blogs (or a failure) and the public students (empty
     * when that request fails): the kept cards, or the error; loading ends either way.
     */
    method Fetch(answer: Result<seq<ListedBlog>, ()>, students: seq<PublicStudent>, filterByUser: bool, userId: J.Json)
      modifies this
      ensures !loading && visibleCount == old(visibleCount)
      ensures answer.Ok? ==> blogs == Kept(Cards(answer.value, students), filterByUser, userId) && error == old(error)
      ensures answer.Err? ==> blogs == old(blogs) && error == Some(MsgLoadFailed)
    {
      loading := true;
      match answer {
        case Ok(listed) =>
          blogs := Kept(Cards(listed, students), filterByUser, userId);
        case Err(_) =>
          error := Some(MsgLoadFailed);
      }
      loading := false;
    }

    /** `handleDeleteBlog`: the card with that id leaves the grid. */
    method DeleteBlog(id: nat)
      modifies this
      ensures blogs == Filter(old(blogs), WithoutId(id))
      ensures forall c :: c in blogs <==> c in old(blogs) && c.id != id
      ensures loading == old(loading) && error == old(error) && visibleCount == old(visibleCount)
    {
      forall c
        ensures c in Filter(blogs, WithoutId(id)) <==> c in blogs && c.id != id
      {
        FilterMembership(blogs, WithoutId(id), c);
      }
      blogs := Filter(blogs, WithoutId(id));
    }

    /** `handleLoadMore`: twelve more cards may show. */
    method LoadMore()
      modifies this
      ensures visibleCount == old(visibleCount) + PageSize
      ensures blogs == old(blogs) && loading == old(loading) && error == old(error)
    {
      visibleCount := visibleCount + PageSize;
    }

    /** `blogs.slice(0, visibleCount)`. */
    function Visible(): (r: seq<Card>)
      reads this
      ensures |r| == if visibleCount < |blogs| then visibleCount else |blogs|
      ensures r == blogs[..|r|]
    {
      if visibleCount < |blogs| then blogs[..visibleCount] else blogs
    }

    /** The Load More button shows exactly while some cards are hidden. */
    predicate ShowsLoadMore()
      reads this
    {
      visibleCount < |blogs|
    }

    /** Without the button every card is visible; with it exactly `visibleCount` are. */
    lemma LoadMoreShownExactly()
      ensures !ShowsLoadMore() <==> Visible() == blogs
      ensures ShowsLoadMore() ==> |Visible()| == visibleCount
    {
    }
  }
}
