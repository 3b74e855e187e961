/** The redirect dispatcher: the request handler `MapHandler` builds from a
    table.  The HTTP side effects are abstracted into a `Decision`: either a
    redirect to write, or the request to hand to the fallback handler. */
module Dispatch {

  /** `http.StatusFound`, the status `MapHandler` redirects with. */
  const StatusFound: int := 302

  /** An incoming request.  Only `path` (the request URL's path) is consulted;
      the rest is carried so that the fallback can be shown to receive the
      request unchanged. */
  datatype Request = Request(verb: string, path: string, header: map<string, seq<string>>)

  /** What the handler does with one request. */
  datatype Decision =
    | Redirect(destination: string, status: int)  // redirect to `destination`
    | Fallback(request: Request)                // call the fallback handler with `request`

  /** A request handler, as `http.HandlerFunc` is one. */
  type Handler = Request -> Decision

  /** The handler `MapHandler(pathsToUrls, fallback)` returns: an exact-match
      lookup of the request path; a hit redirects to the mapped destination
      with 302 Found, a miss passes the untouched request to the fallback. */
  function MapHandler(pathsToUrls: map<string, string>): (h: Handler)
    ensures forall req: Request :: h(req).Redirect? <==> req.path in pathsToUrls
    ensures forall req: Request :: req.path in pathsToUrls ==>
      h(req) == Redirect(pathsToUrls[req.path], StatusFound)
    ensures forall req: Request :: req.path !in pathsToUrls ==> h(req) == Fallback(req)
  {
    (req: Request) => if req.path in pathsToUrls then Redirect(pathsToUrls[req.path], StatusFound) else Fallback(req)
  }

  /** Only the path is consulted: two requests with the same path are both
      redirected to the same place or both passed to the fallback. */
  lemma OnlyPathConsulted(pathsToUrls: map<string, string>, req1: Request, req2: Request)
    requires req1.path == req2.path
    ensures MapHandler(pathsToUrls)(req1).Redirect? == MapHandler(pathsToUrls)(req2).Redirect?
    ensures MapHandler(pathsToUrls)(req1).Redirect? ==>
      MapHandler(pathsToUrls)(req1) == MapHandler(pathsToUrls)(req2)
  {
  }

  /** A larger table redirects at least every path a smaller one does, and to
      the same place where the two tables agree. */
  lemma MapHandlerMonotone(small: map<string, string>, large: map<string, string>, req: Request)
    requires small.Keys <= large.Keys
    requires forall p :: p in small ==> large[p] == small[p]
    ensures MapHandler(small)(req).Redirect? ==> MapHandler(large)(req) == MapHandler(small)(req)
    ensures MapHandler(large)(req).Fallback? ==> MapHandler(small)(req) == MapHandler(large)(req)
  {
  }

  /** Example: the godoc path redirects, an unmapped path falls back. */
  lemma GodocExample(verb: string, header: map<string, seq<string>>)
    ensures var table := map["/urlshort-godoc" := "https://godoc.org/github.com/gophercises/urlshort"];
      && MapHandler(table)(Request(verb, "/urlshort-godoc", header))
         == Redirect("https://godoc.org/github.com/gophercises/urlshort", StatusFound)
      && MapHandler(table)(Request(verb, "/missing", header))
         == Fallback(Request(verb, "/missing", header))
  {
  }
}
