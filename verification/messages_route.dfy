/** The authenticated, rate-limited GET handler of the message listing.
    The session lookup and the database query are outside this model: their
    outcomes are parameters. */
module MessagesRoute {
  import opened Common
  import RateLimit

  /** A stored collaboration request, as the listing selects it. */
  datatype Message = Message(id: int, name: string, email: string, message: string, createdAt: int)

  /** What the session lookup produced: it threw, or it resolved to a session
      whose user email may be missing. */
  datatype SessionLookup = LookupThrew | Resolved(email: Option<string>)

  /** What the database query produced: the rows, or a thrown error with
      some internal detail. */
  datatype Fetch = Fetched(rows: seq<Message>) | FetchThrew(detail: string)

  datatype Body = ErrorBody(error: string) | Rows(rows: seq<Message>)

  /** An HTTP response: status, JSON body, and the Cache-Control header when
      one is set. */
  datatype Response = Response(status: int, body: Body, cacheControl: Option<string>)

  const UnauthorizedBody: string := "Unauthorized"
  const TooManyBody: string := "Too many requests"
  const FailureBody: string := "Failed to fetch messages"
  const PrivateNoStore: string := "private, no-store"

  /** The email the handler keys on: a missing email and an empty one are
      both falsy and count as not signed in. */
  predicate SignedIn(lookup: SessionLookup) {
    lookup.Resolved? && lookup.email.Some? && lookup.email.value != ""
  }

  /** The fixed answer to any thrown error; it carries no detail. */
  function Failure(): Response {
    Response(500, ErrorBody(FailureBody), None)
  }

  /** The handler result and the limiter store after it. */
  datatype Handled = Handled(response: Response, store: RateLimit.Store)

  /** GET: authentication first, then the limiter, then the query. */
  function Get(store: RateLimit.Store, now: int, lookup: SessionLookup, fetch: Fetch): (h: Handled)
    // a thrown session lookup is a generic 500 and never reaches the limiter
    ensures lookup.LookupThrew? ==> h == Handled(Failure(), store)
    // without an email: 401, and the limiter is not consulted
    ensures lookup.Resolved? && !SignedIn(lookup) ==>
      h == Handled(Response(401, ErrorBody(UnauthorizedBody), None), store)
    // signed in: the limiter decides between 429 and the query
    ensures SignedIn(lookup) ==>
      var c := RateLimit.CheckRateLimit(store, lookup.email.value, now);
      && h.store == c.store
      && (h.response.status == 429 <==> !c.allowed)
      && (!c.allowed ==> h.response.body == ErrorBody(TooManyBody))
    // every answer carries one of four statuses
    ensures h.response.status in {200, 401, 429, 500}
    // only a successful query yields 200, with its rows and a private, uncached header
    ensures h.response.status == 200 <==>
      (SignedIn(lookup) && fetch.Fetched? && RateLimit.CheckRateLimit(store, lookup.email.value, now).allowed)
    ensures h.response.status == 200 ==> h.response == Response(200, Rows(fetch.rows), Some(PrivateNoStore))
    // a failed query after admission is the generic 500
    ensures (SignedIn(lookup) && fetch.FetchThrew? &&
             RateLimit.CheckRateLimit(store, lookup.email.value, now).allowed) ==> h.response == Failure()
  {
    match lookup
    case LookupThrew => Handled(Failure(), store)
    case Resolved(email) =>
      if email.None? || email.value == "" then
        Handled(Response(401, ErrorBody(UnauthorizedBody), None), store)
      else
        var c := RateLimit.CheckRateLimit(store, email.value, now);
        if !c.allowed then
          Handled(Response(429, ErrorBody(TooManyBody), None), c.store)
        else
          match fetch
          case Fetched(rows) => Handled(Response(200, Rows(rows), Some(PrivateNoStore)), c.store)
          case FetchThrew(_) => Handled(Failure(), c.store)
  }

  /** The error detail never reaches the client: two requests that differ
      only in what the query threw get identical responses. */
  lemma FailureHidesDetail(store: RateLimit.Store, now: int, lookup: SessionLookup, d1: string, d2: string)
    ensures Get(store, now, lookup, FetchThrew(d1)) == Get(store, now, lookup, FetchThrew(d2))
    ensures Get(store, now, lookup, FetchThrew(d1)).response.body.ErrorBody?
  {
  }

  /** An unauthenticated request never affects how the limiter treats
      anyone: a later signed-in request is answered as if it had not
      happened. */
  lemma UnauthenticatedLeavesLimiter(store: RateLimit.Store, t1: int, t2: int, anon: SessionLookup,
                                     user: SessionLookup, f1: Fetch, f2: Fetch)
    requires !SignedIn(anon)
    ensures Get(Get(store, t1, anon, f1).store, t2, user, f2) == Get(store, t2, user, f2)
  {
  }
}
