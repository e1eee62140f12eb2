/**
 * backend/server.js: the health endpoint, the error-handling middleware, the 404
 * fallback, and how a request reaches its handler. The upload pipeline composes multer
 * (whose errors go to the middleware) with the POST handler.
 */
module Server {
  import opened Wrappers
  import opened Text
  import opened Records
  import opened Http
  import Routes

  const SIZE_LIMIT_MESSAGE := "File size too large. Maximum size is 5MB."
  const INTERNAL_ERROR := "Internal server error"
  const REDACTED_DETAIL := "Something went wrong"
  const ROUTE_NOT_FOUND := "Route not found"
  const HEALTH_MESSAGE := "SVG Holder API is running"

  /** The error-handling middleware. `nodeEnv` is `process.env.NODE_ENV`. */
  function HandleError(err: AppError, nodeEnv: Option<string>): (r: Response)
    ensures err.code == Some(Routes.LIMIT_FILE_SIZE) ==> r == Failure(400, SIZE_LIMIT_MESSAGE)
    ensures err.code != Some(Routes.LIMIT_FILE_SIZE) && err.message == Routes.ONLY_SVG_MESSAGE ==>
              r == Failure(400, Routes.ONLY_SVG_MESSAGE)
    ensures r.status == 400 <==> err.code == Some(Routes.LIMIT_FILE_SIZE) || err.message == Routes.ONLY_SVG_MESSAGE
    ensures r.status != 400 ==>
              r == ServerFault(INTERNAL_ERROR, if nodeEnv == Some("development") then err.message else REDACTED_DETAIL)
  {
    if err.code == Some(Routes.LIMIT_FILE_SIZE) then
      Failure(400, SIZE_LIMIT_MESSAGE)
    else if err.message == Routes.ONLY_SVG_MESSAGE then
      Failure(400, Routes.ONLY_SVG_MESSAGE)
    else
      ServerFault(INTERNAL_ERROR, if nodeEnv == Some("development") then err.message else REDACTED_DETAIL)
  }

  /** Outside development mode the answer never reveals an error's own message. */
  lemma DetailRedactedOutsideDevelopment(err: AppError, nodeEnv: Option<string>)
    requires nodeEnv != Some("development") && err.message != REDACTED_DETAIL
    ensures HandleError(err, nodeEnv).body.error != Some(err.message)
  {
  }

  /** The size code wins over the message: an oversize error is reported as such whatever it says. */
  lemma SizeCodeTakesPrecedence(message: string, nodeEnv: Option<string>)
    ensures HandleError(AppError(Some(Routes.LIMIT_FILE_SIZE), message), nodeEnv).body.message
            == Some(SIZE_LIMIT_MESSAGE)
  {
  }

  /** The fallback for every request no route matched. */
  function NotFound(): (r: Response)
    ensures r.status == 404 && !r.body.success && r.body.message == Some(ROUTE_NOT_FOUND)
  {
    Failure(404, ROUTE_NOT_FOUND)
  }

  /** GET `/api/health`, with the clock's ISO time as a parameter. */
  function Health(timestamp: string): (r: Response)
    ensures r.status == 200 && r.body.success
    ensures r.body.message == Some(HEALTH_MESSAGE) && r.body.timestamp == Some(timestamp)
  {
    Response(200, Body(true, Some(HEALTH_MESSAGE), None, None, Some(timestamp)))
  }

  datatype Verb = GET | HEAD | POST | PUT | DELETE | OtherVerb

  datatype Endpoint =
    | ListSvgs | SearchSvgs | GetSvg(id: string) | CreateSvg | UpdateSvg(id: string)
    | DeleteSvg(id: string) | HealthCheck | NoRoute

  /** Express matches route paths ignoring letter case. */
  predicate SegmentIs(segment: string, word: string) {
    ToLower(segment) == word
  }

  /** Express answers HEAD with the GET route registered for the same path. */
  predicate ReadsLikeGet(verb: Verb) {
    verb == GET || verb == HEAD
  }

  /**
   * Which handler a request reaches, by verb and path segments (`/api/svgs/x` is
   * `["api", "svgs", "x"]`; a trailing slash adds no segment). Routes are tried in
   * registration order, so `/search` is taken before `/:id`. The id is the segment as
   * sent, in its own letter case.
   */
  function Dispatch(verb: Verb, path: seq<string>): (e: Endpoint)
    ensures e.GetSvg? ==>
              ReadsLikeGet(verb) && |path| == 3 && !SegmentIs(path[2], "search") && e.id == path[2]
    ensures e == NoRoute <==>
              !((ReadsLikeGet(verb) && |path| == 2 && SegmentIs(path[0], "api")
                 && (SegmentIs(path[1], "svgs") || SegmentIs(path[1], "health")))
                || (verb == POST && |path| == 2 && SegmentIs(path[0], "api") && SegmentIs(path[1], "svgs"))
                || (verb in {GET, HEAD, PUT, DELETE} && |path| == 3
                    && SegmentIs(path[0], "api") && SegmentIs(path[1], "svgs")))
  {
    if |path| == 2 && SegmentIs(path[0], "api") && SegmentIs(path[1], "health") && ReadsLikeGet(verb) then
      HealthCheck
    else if |path| == 2 && SegmentIs(path[0], "api") && SegmentIs(path[1], "svgs") then
      (match verb
       case GET => ListSvgs
       case HEAD => ListSvgs
       case POST => CreateSvg
       case _ => NoRoute)
    else if |path| == 3 && SegmentIs(path[0], "api") && SegmentIs(path[1], "svgs") then
      (match verb
       case GET => if SegmentIs(path[2], "search") then SearchSvgs else GetSvg(path[2])
       case HEAD => if SegmentIs(path[2], "search") then SearchSvgs else GetSvg(path[2])
       case PUT => UpdateSvg(path[2])
       case DELETE => DeleteSvg(path[2])
       case _ => NoRoute)
    else NoRoute
  }

  /**
   * `/search` is never read as an id by GET or HEAD, in any letter case, though PUT and
   * DELETE do take it as one.
   */
  lemma SearchIsNotAnId()
    ensures Dispatch(GET, ["api", "svgs", "search"]) == SearchSvgs
    ensures Dispatch(HEAD, ["api", "svgs", "Search"]) == SearchSvgs
    ensures Dispatch(GET, ["API", "Svgs", "SEARCH"]) == SearchSvgs
    ensures Dispatch(PUT, ["api", "svgs", "search"]) == UpdateSvg("search")
    ensures Dispatch(DELETE, ["api", "svgs", "search"]) == DeleteSvg("search")
  {
    assert ToLower("search") == "search";
    assert ToLower("Search") == "search";
    assert ToLower("SEARCH") == "search";
    assert ToLower("api") == "api" && ToLower("API") == "api";
    assert ToLower("svgs") == "svgs" && ToLower("Svgs") == "svgs";
  }

  /** Upper-case paths and HEAD requests reach the same handlers as their lower-case GET forms. */
  lemma CaseAndHeadReachTheSameHandler(id: string)
    ensures Dispatch(HEAD, ["api", "health"]) == HealthCheck
    ensures Dispatch(GET, ["API", "HEALTH"]) == HealthCheck
    ensures Dispatch(HEAD, ["Api", "Svgs"]) == ListSvgs
    ensures Dispatch(POST, ["API", "SVGS"]) == CreateSvg
    ensures ToLower(id) != "search" ==> Dispatch(HEAD, ["api", "SVGS", id]) == GetSvg(id)
    ensures Dispatch(OtherVerb, ["api", "svgs"]) == NoRoute
  {
    assert ToLower("api") == "api" && ToLower("API") == "api" && ToLower("Api") == "api";
    assert ToLower("health") == "health" && ToLower("HEALTH") == "health";
    assert ToLower("Svgs") == "svgs" && ToLower("SVGS") == "svgs" && ToLower("svgs") == "svgs";
  }

  /**
   * POST `/api/svgs` end to end: multer first (its errors go to the middleware), then the
   * handler.
   */
  method Upload(store: SvgStore, name: Option<string>, description: Option<string>,
                file: Option<Routes.Upload>, nodeEnv: Option<string>,
                db: DbStatus, newId: string, createdAt: int, updatedAt: int)
    returns (resp: Response)
    requires store.Valid()
    requires IsCanonicalId(newId) && newId !in Ids(store.records)
    modifies store
    ensures store.Valid()
    ensures file.Some? && !Routes.FileFilter(file.value.mimetype, file.value.originalName) ==>
              resp == Failure(400, Routes.ONLY_SVG_MESSAGE) && store.records == old(store.records)
    ensures file.Some? && Routes.FileFilter(file.value.mimetype, file.value.originalName)
            && file.value.size > Routes.MAX_FILE_SIZE ==>
              resp == Failure(400, SIZE_LIMIT_MESSAGE) && store.records == old(store.records)
    ensures Routes.ReceiveUpload(file).Ok? && Routes.ValidateCreate(name, description, file).Err? ==>
              resp.status == 400 && store.records == old(store.records)
    ensures resp.status != 201 ==> store.records == old(store.records)
    ensures resp.status == 201 <==>
              Routes.ReceiveUpload(file).Ok? && Routes.ValidateCreate(name, description, file).Ok? && db == Connected
    ensures resp.status == 201 ==>
              |store.records| == |old(store.records)| + 1 && store.records[..|old(store.records)|] == old(store.records)
  {
    var received := Routes.ReceiveUpload(file);
    if received.Err? {
      return HandleError(received.error, nodeEnv);
    }
    resp := Routes.Create(store, name, description, file, db, newId, createdAt, updatedAt);
  }
}
