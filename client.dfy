/**
 * The client's pure parts (src/client.rs): the URIs of the AtomPub collection, member and
 * category document, what each operation sends, and how a response status becomes a
 * result. The HTTP exchange itself is a parameter.
 */
module Client {
  import opened Wrappers
  import opened EntryIds
  import EntryParamsXml
  import Response
  import Atom

  /** The configuration fields the client reads. */
  datatype Config = Config(hatenaId: string, baseUrl: string, blogId: string, apiKey: string)

  /** `urlencoding::encode`, left to the library. */
  type Encoder = string -> string

  /** The AtomPub root of one blog: `{base}/{hatena}/{blog}/atom`. */
  function AtomRoot(config: Config): string
  {
    config.baseUrl + "/" + config.hatenaId + "/" + config.blogId + "/atom"
  }

  /** `category_document_uri`. */
  function CategoryDocumentUri(config: Config): (uri: string)
    ensures uri == AtomRoot(config) + "/category"
  {
    config.baseUrl + "/" + config.hatenaId + "/" + config.blogId + "/atom/category"
  }

  /** `collection_uri`: the collection, followed by `?page=` and the encoded cursor when one is given. */
  function CollectionUri(config: Config, page: Option<string>, encode: Encoder): (uri: string)
    ensures page.None? ==> uri == AtomRoot(config) + "/entry"
    ensures page.Some? ==> uri == AtomRoot(config) + "/entry" + "?page=" + encode(page.value)
  {
    config.baseUrl + "/" + config.hatenaId + "/" + config.blogId + "/atom/entry" +
      (match page case Some(p) => "?page=" + encode(p) case None => "")
  }

  /** `member_uri`: the collection URI followed by one more segment, the id. */
  function MemberUri(config: Config, id: EntryId): (uri: string)
    ensures uri == AtomRoot(config) + "/entry" + "/" + ToString(id)
  {
    config.baseUrl + "/" + config.hatenaId + "/" + config.blogId + "/atom/entry/" + ToString(id)
  }

  /** A page cursor only ever extends the first-page URI. */
  lemma CollectionUriOfPage(config: Config, page: string, encode: Encoder)
    ensures CollectionUri(config, Some(page), encode) == CollectionUri(config, None, encode) + "?page=" + encode(page)
  {
  }

  /** A member URI is the collection URI plus `/` and the id's text. */
  lemma MemberUriExtendsCollection(config: Config, id: EntryId, encode: Encoder)
    ensures MemberUri(config, id) == CollectionUri(config, None, encode) + "/" + ToString(id)
  {
  }

  /**
   * `get_id` inverts `member_uri`: an entry whose edit link is the member URI of `id` has
   * the id `id`, provided the id contains no slash.
   */
  lemma GetIdOfMemberUri(config: Config, id: EntryId, entry: Atom.Entry)
    requires '/' !in ToString(id)
    requires Response.GetEditUrl(entry) == Some(MemberUri(config, id))
    ensures Response.GetId(entry) == Some(id)
  {
    Response.GetIdOfEditLink(entry, AtomRoot(config) + "/entry", ToString(id));
  }

  const TestConfig: Config := Config("HATENA_ID", "BASE_URL", "BLOG_ID", "API_KEY")

  /** The unit tests of the URI builders. */
  lemma UriExamples(encode: Encoder)
    ensures CollectionUri(TestConfig, None, encode) == "BASE_URL/HATENA_ID/BLOG_ID/atom/entry"
    ensures MemberUri(TestConfig, EntryIdRepr("ENTRY_ID")) == "BASE_URL/HATENA_ID/BLOG_ID/atom/entry/ENTRY_ID"
  {
    assert "BASE_URL" + "/" == "BASE_URL/";
    assert "BASE_URL/" + "HATENA_ID" == "BASE_URL/HATENA_ID";
    assert "BASE_URL/HATENA_ID" + "/" == "BASE_URL/HATENA_ID/";
    assert "BASE_URL/HATENA_ID/" + "BLOG_ID" == "BASE_URL/HATENA_ID/BLOG_ID";
    assert "BASE_URL/HATENA_ID/BLOG_ID" + "/atom/entry" == "BASE_URL/HATENA_ID/BLOG_ID/atom/entry";
    assert "BASE_URL/HATENA_ID/BLOG_ID/atom/entry" + "" == "BASE_URL/HATENA_ID/BLOG_ID/atom/entry";
    assert "BASE_URL/HATENA_ID/BLOG_ID" + "/atom/entry/" == "BASE_URL/HATENA_ID/BLOG_ID/atom/entry/";
    assert "BASE_URL/HATENA_ID/BLOG_ID/atom/entry/" + "ENTRY_ID" == "BASE_URL/HATENA_ID/BLOG_ID/atom/entry/ENTRY_ID";
  }

  // ---------------------------------------------------------------------------------------
  // Responses
  // ---------------------------------------------------------------------------------------

  /** `ClientError`; `RequestError` stands for any failure of the transport. */
  datatype ClientError =
    | RequestError
    | BadRequest
    | Unauthorized
    | NotFound
    | MethodNotAllowed
    | InternalServerError
    | UnknownStatusCode

  /** `StatusCode::is_success`: the 2xx range. */
  predicate IsSuccess(status: int)
  {
    200 <= status <= 299
  }

  /** The status each named error stands for; not defined for the other two errors. */
  function StatusOf(e: ClientError): (status: int)
    requires !e.RequestError? && !e.UnknownStatusCode?
    ensures !IsSuccess(status)
  {
    match e
    case BadRequest => 400
    case Unauthorized => 401
    case NotFound => 404
    case MethodNotAllowed => 405
    case InternalServerError => 500
  }

  /**
   * The status `match` of `request`: a 2xx status yields the body text, or `RequestError`
   * when the text cannot be read (`text` is `None`); 400, 401, 404, 405 and 500 have their
   * own errors; every other status is `UnknownStatusCode`.
   */
  function StatusResult(status: int, text: Option<string>): (r: Result<string, ClientError>)
    ensures r.Ok? <==> IsSuccess(status) && text.Some?
    ensures r.Ok? ==> Some(r.value) == text
    ensures r == Err(RequestError) <==> IsSuccess(status) && text.None?
    ensures r == Err(BadRequest) <==> status == 400
    ensures r == Err(Unauthorized) <==> status == 401
    ensures r == Err(NotFound) <==> status == 404
    ensures r == Err(MethodNotAllowed) <==> status == 405
    ensures r == Err(InternalServerError) <==> status == 500
    ensures r == Err(UnknownStatusCode) <==> !IsSuccess(status) && status !in {400, 401, 404, 405, 500}
  {
    if IsSuccess(status) then
      match text
      case Some(body) => Ok(body)
      case None => Err(RequestError)
    else if status == 400 then Err(BadRequest)
    else if status == 401 then Err(Unauthorized)
    else if status == 404 then Err(NotFound)
    else if status == 405 then Err(MethodNotAllowed)
    else if status == 500 then Err(InternalServerError)
    else Err(UnknownStatusCode)
  }

  /** Each named error is produced by its own status, whatever the body. */
  lemma StatusOfRoundTrip(e: ClientError, text: Option<string>)
    requires !e.RequestError? && !e.UnknownStatusCode?
    ensures StatusResult(StatusOf(e), text) == Err(e)
  {
  }

  /** The status tests: 401, 404 and 500 become their errors; 201 and 200 yield the body. */
  lemma StatusExamples(body: string)
    ensures StatusResult(401, Some(body)) == Err(Unauthorized)
    ensures StatusResult(404, Some(body)) == Err(NotFound)
    ensures StatusResult(500, Some(body)) == Err(InternalServerError)
    ensures StatusResult(201, Some(body)) == Ok(body)
    ensures StatusResult(200, Some(body)) == Ok(body)
  {
  }

  // ---------------------------------------------------------------------------------------
  // Requests
  // ---------------------------------------------------------------------------------------

  datatype Method = Get | Post | Put | Delete

  /** An authenticated request: basic authentication with the Hatena id and the API key. */
  datatype Request = Request(verb: Method, url: string, user: string, password: string, body: Option<string>)

  /**
   * The HTTP exchange, left to the transport: `None` when sending fails, otherwise the
   * status and the body text (`None` when the text cannot be read).
   */
  type Transport = Request -> Option<(int, Option<string>)>

  function Authorized(config: Config, verb: Method, url: string, body: Option<string>): (req: Request)
    ensures req.user == config.hatenaId && req.password == config.apiKey
    ensures req.verb == verb && req.url == url && req.body == body
  {
    Request(verb, url, config.hatenaId, config.apiKey, body)
  }

  /** `request`: a transport failure is `RequestError`; otherwise the status decides. */
  function Exchange(send: Transport, req: Request): (r: Result<string, ClientError>)
    ensures send(req).None? ==> r == Err(RequestError)
    ensures send(req).Some? ==> r == StatusResult(send(req).value.0, send(req).value.1)
  {
    match send(req)
    case None => Err(RequestError)
    case Some((status, text)) => StatusResult(status, text)
  }

  /** `create_entry` sends a POST to the collection whose body is the serialised entry. */
  function CreateEntryRequest(config: Config, params: EntryParamsXml.EntryParams, encode: Encoder): (req: Request)
    ensures req.verb == Post && req.url == CollectionUri(config, None, encode)
    ensures req.body == Some(EntryParamsXml.EntryXml(params))
    ensures req.body.Some? && EntryParamsXml.ReadBack(req.body.value) == Some(params)
    ensures req.user == config.hatenaId && req.password == config.apiKey
  {
    EntryParamsXml.IntoXmlReadBack(params);
    Authorized(config, Post, CollectionUri(config, None, encode), Some(EntryParamsXml.EntryXml(params)))
  }

  /** `update_entry` sends a PUT to the member whose body is the serialised entry. */
  function UpdateEntryRequest(config: Config, id: EntryId, params: EntryParamsXml.EntryParams): (req: Request)
    ensures req.verb == Put && req.url == MemberUri(config, id)
    ensures req.body == Some(EntryParamsXml.EntryXml(params))
    ensures req.body.Some? && EntryParamsXml.ReadBack(req.body.value) == Some(params)
    ensures req.user == config.hatenaId && req.password == config.apiKey
  {
    EntryParamsXml.IntoXmlReadBack(params);
    Authorized(config, Put, MemberUri(config, id), Some(EntryParamsXml.EntryXml(params)))
  }

  /** `delete_entry` sends a DELETE to the member, without a body. */
  function DeleteEntryRequest(config: Config, id: EntryId): (req: Request)
    ensures req.verb == Delete && req.url == MemberUri(config, id) && req.body.None?
    ensures req.user == config.hatenaId && req.password == config.apiKey
  {
    Authorized(config, Delete, MemberUri(config, id), None)
  }

  /** `get_entry` sends a GET to the member, without a body. */
  function GetEntryRequest(config: Config, id: EntryId): (req: Request)
    ensures req.verb == Get && req.url == MemberUri(config, id) && req.body.None?
    ensures req.user == config.hatenaId && req.password == config.apiKey
  {
    Authorized(config, Get, MemberUri(config, id), None)
  }

  /** `list_categories` sends a GET to the category document, without a body. */
  function ListCategoriesRequest(config: Config): (req: Request)
    ensures req.verb == Get && req.url == CategoryDocumentUri(config) && req.body.None?
    ensures req.user == config.hatenaId && req.password == config.apiKey
  {
    Authorized(config, Get, CategoryDocumentUri(config), None)
  }

  /** `list_entries_in_page` sends a GET to the collection, at the given page, without a body. */
  function ListEntriesInPageRequest(config: Config, page: Option<string>, encode: Encoder): (req: Request)
    ensures req.verb == Get && req.url == CollectionUri(config, page, encode) && req.body.None?
    ensures req.user == config.hatenaId && req.password == config.apiKey
  {
    Authorized(config, Get, CollectionUri(config, page, encode), None)
  }

  /** The body of a successful exchange, kept verbatim in the response wrapper. */
  function CreateEntry(config: Config, params: EntryParamsXml.EntryParams, encode: Encoder, send: Transport): (r: Result<Response.MemberResponse, ClientError>)
    ensures var out := Exchange(send, CreateEntryRequest(config, params, encode));
      (r.Ok? <==> out.Ok?) && (r.Ok? ==> Response.MemberToString(r.value) == out.value) &&
      (r.Err? ==> out == Err(r.error))
  {
    match Exchange(send, CreateEntryRequest(config, params, encode))
    case Ok(body) => Ok(Response.MemberResponse(body))
    case Err(e) => Err(e)
  }

  function UpdateEntry(config: Config, id: EntryId, params: EntryParamsXml.EntryParams, send: Transport): (r: Result<Response.MemberResponse, ClientError>)
    ensures var out := Exchange(send, UpdateEntryRequest(config, id, params));
      (r.Ok? <==> out.Ok?) && (r.Ok? ==> Response.MemberToString(r.value) == out.value) &&
      (r.Err? ==> out == Err(r.error))
  {
    match Exchange(send, UpdateEntryRequest(config, id, params))
    case Ok(body) => Ok(Response.MemberResponse(body))
    case Err(e) => Err(e)
  }

  function GetEntry(config: Config, id: EntryId, send: Transport): (r: Result<Response.MemberResponse, ClientError>)
    ensures var out := Exchange(send, GetEntryRequest(config, id));
      (r.Ok? <==> out.Ok?) && (r.Ok? ==> Response.MemberToString(r.value) == out.value) &&
      (r.Err? ==> out == Err(r.error))
  {
    match Exchange(send, GetEntryRequest(config, id))
    case Ok(body) => Ok(Response.MemberResponse(body))
    case Err(e) => Err(e)
  }

  /** A successful delete keeps nothing of the body: the response prints as "". */
  function DeleteEntry(config: Config, id: EntryId, send: Transport): (r: Result<Response.EmptyResponse, ClientError>)
    ensures var out := Exchange(send, DeleteEntryRequest(config, id));
      (r.Ok? <==> out.Ok?) && (r.Ok? ==> Response.EmptyToString(r.value) == "") &&
      (r.Err? ==> out == Err(r.error))
  {
    match Exchange(send, DeleteEntryRequest(config, id))
    case Ok(body) => Ok(Response.EmptyFromString(body))
    case Err(e) => Err(e)
  }

  function ListCategories(config: Config, send: Transport): (r: Result<Response.CategoryDocumentResponse, ClientError>)
    ensures var out := Exchange(send, ListCategoriesRequest(config));
      (r.Ok? <==> out.Ok?) && (r.Ok? ==> Response.CategoryDocumentToString(r.value) == out.value) &&
      (r.Err? ==> out == Err(r.error))
  {
    match Exchange(send, ListCategoriesRequest(config))
    case Ok(body) => Ok(Response.CategoryDocumentResponse(body))
    case Err(e) => Err(e)
  }

  function ListEntriesInPage(config: Config, page: Option<string>, encode: Encoder, send: Transport): (r: Result<Response.CollectionResponse, ClientError>)
    ensures var out := Exchange(send, ListEntriesInPageRequest(config, page, encode));
      (r.Ok? <==> out.Ok?) && (r.Ok? ==> Response.CollectionToString(r.value) == out.value) &&
      (r.Err? ==> out == Err(r.error))
  {
    match Exchange(send, ListEntriesInPageRequest(config, page, encode))
    case Ok(body) => Ok(Response.CollectionResponse(body))
    case Err(e) => Err(e)
  }
}
