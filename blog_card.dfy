/**
 * A blog card: who may edit or delete the blog it shows, and what its delete button does.
 */
module BlogCard {
  import opened Common
  import Text
  import J = Json

  const Admin := "ADMIN"

  /** The edit button: shown to a non-admin whose id reads the same as the author's. */
  predicate CanEdit(role: Option<string>, currentUserId: J.Json, authorId: J.Json)
  {
    role != Some(Admin) && J.Display(currentUserId) == J.Display(authorId)
  }

  /** The delete button: shown to an admin. */
  predicate CanDelete(role: Option<string>)
  {
    role == Some(Admin)
  }

  /**
   * The two buttons never appear together: an admin may delete any blog and edits none,
   * and the author edits their own blog but cannot delete it from here.
   */
  lemma EditDeleteExclusive(role: Option<string>, currentUserId: J.Json, authorId: J.Json)
    ensures !(CanEdit(role, currentUserId, authorId) && CanDelete(role))
    ensures CanDelete(role) || J.Display(currentUserId) != J.Display(authorId) || CanEdit(role, currentUserId, authorId)
  {
  }

  /** An author id given as a number and the same id held as text both enable editing. */
  lemma EditComparesAsText(role: Option<string>, id: nat)
    requires role != Some(Admin)
    ensures CanEdit(role, J.JNum(id), J.JStr(J.IntToString(id)))
    ensures CanEdit(role, J.JStr(J.IntToString(id)), J.JNum(id))
  {
  }

  /** The request a delete sends: the blog's delete address, with the stored token. */
  datatype Request = Delete(url: string, authorization: string)

  /** What a delete does: the request sent, if any, and whether the grid is told to drop the blog. */
  datatype DeleteEffect = DeleteEffect(request: Option<Request>, removed: bool)

  /**
   * `handleDelete`, given the answer to the confirmation, the stored token and whether the
   * server accepts the request: a refused confirmation or a missing token sends nothing, and
   * the grid drops the blog only after the server has accepted.
   */
  function HandleDelete(id: nat, confirmed: bool, token: Option<string>, accepted: bool): (e: DeleteEffect)
    ensures e.request.Some? <==> confirmed && token.Some? && token.value != ""
    ensures e.request.Some? ==> e.request.value.authorization == "Token " + token.value
    ensures e.removed <==> e.request.Some? && accepted
  {
    if !confirmed then DeleteEffect(None, false)
    else if token.None? || token.value == "" then DeleteEffect(None, false)
    else DeleteEffect(Some(Delete("http://localhost:8000/api/blogs/" + J.IntToString(id) + "/delete/", "Token " + token.value)), accepted)
  }

  /** Deletes of different blogs go to different addresses. */
  lemma DeleteAddressesDistinct(a: nat, b: nat, token: string)
    requires a != b && token != ""
    ensures HandleDelete(a, true, Some(token), true).request.value.url != HandleDelete(b, true, Some(token), true).request.value.url
  {
    var prefix := "http://localhost:8000/api/blogs/";
    var ua := prefix + J.IntToString(a) + "/delete/";
    var ub := prefix + J.IntToString(b) + "/delete/";
    if ua == ub {
      Text.NatToStringInjective(a, b);
      DeleteSuffix(prefix, J.IntToString(a), J.IntToString(b));
    }
  }

  /** Two addresses with the same frame and different middles differ. */
  lemma DeleteSuffix(prefix: string, x: string, y: string)
    requires prefix + x + "/delete/" == prefix + y + "/delete/"
    ensures x == y
  {
    var s := prefix + x + "/delete/";
    assert x == s[|prefix|..|prefix| + |x|];
    assert y == s[|prefix|..|prefix| + |y|];
  }
}
