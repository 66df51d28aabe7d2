/**
 * The server-action variant of the post-creation form. It reads the three
 * submitted values, normalizes the tags, sends one POST to the API's
 * `/posts` endpoint with the caller's cookies, and asks for the
 * "blogPosts" cache tag to be revalidated when the response is ok. It runs
 * no schema and reports nothing back when the response is not ok.
 */
module ServerForm {
  import opened Wrappers
  import opened Post
  import TagNormalizer
  import Validation

  const PostsPath := "/posts"
  const JsonContentType := "application/json"
  const BlogPostsTag := "blogPosts"
  const MaxProfile := "max"

  /** The outgoing request; `cookie` is the serialized cookie store, passed on as received. */
  datatype Request = Request(verb: string, url: string, contentType: string, cookie: string, body: BlogData)

  /** A call of `revalidateTag(tag, profile)`. */
  datatype Revalidation = Revalidation(tag: string, profile: string)

  /** What one run of the action does: the request it sends and the
      revalidation it asks for, if any. It returns nothing to its caller. */
  datatype Effects = Effects(request: Request, revalidate: Option<Revalidation>)

  /** The request the action sends for the submitted values: a JSON POST to
      `<apiUrl>/posts` carrying the caller's cookies and exactly the three
      fields, title and content as submitted and the tags normalized. It is
      built for every input: no length rule applies on this path. */
  function BuildRequest(apiUrl: string, cookie: string, form: Draft): (r: Request)
    ensures r.verb == "POST" && r.url == apiUrl + PostsPath
    ensures r.contentType == JsonContentType && r.cookie == cookie
    ensures r.body.title == form.title && r.body.content == form.content
    ensures r.body.tags == TagNormalizer.Normalize(form.tags)
  {
    Request("POST", apiUrl + PostsPath, JsonContentType, cookie, ToBlogData(form))
  }

  /** The whole action, given whether the response came back ok: the request
      does not depend on the response, and the "blogPosts" tag is revalidated
      exactly when the response is ok. A response that is not ok has no
      other effect. */
  function CreateBlog(apiUrl: string, cookie: string, form: Draft, responseOk: bool): (e: Effects)
    ensures e.request == BuildRequest(apiUrl, cookie, form)
    ensures e.revalidate.Some? <==> responseOk
    ensures responseOk ==> e.revalidate == Some(Revalidation(BlogPostsTag, MaxProfile))
  {
    Effects(BuildRequest(apiUrl, cookie, form),
            if responseOk then Some(Revalidation(BlogPostsTag, MaxProfile)) else None)
  }

  /** Both forms send the same body for the same values: the server action's
      body is the one the client form hands to its create call. */
  lemma SameBodyAsClient(apiUrl: string, cookie: string, form: Draft, responseOk: bool)
    ensures CreateBlog(apiUrl, cookie, form, responseOk).request.body == ToBlogData(form)
  {
  }

  /** Values the client schema rejects are still sent by the server action.
      A one-letter title and a one-letter content pass the inputs'
      `required` attributes but not the client's length rules, and they go
      out as typed, an empty tags field becoming no tags. */
  lemma RejectedValuesAreSent(apiUrl: string, cookie: string, responseOk: bool)
    ensures Validation.Validate(Draft("a", "b", "")).Err?
    ensures CreateBlog(apiUrl, cookie, Draft("a", "b", ""), responseOk).request.body == BlogData("a", "b", [])
  {
    TagNormalizer.NormalizeEmptyIff("");
  }
}
