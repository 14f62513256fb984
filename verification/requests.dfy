/**
 * The request: five views over the request's data. The query string and the
 * body are validated views, cookies, uploads and the server environment are
 * plain ones. The constructor takes the body parameters first and the query
 * parameters second; the factory passes the superglobals in that order, so the
 * query view ends up holding `$_GET` and the body view `$_POST`.
 */
module Requests {
  import opened Wrappers
  import opened Php
  import opened Failures
  import P = Parameters
  import Methods
  import Servers

  datatype Request = Request(
    query: P.Bag<Value>,    // validated view of the query string
    request: P.Bag<Value>,  // validated view of the body parameters
    cookie: P.Bag<Value>,
    file: P.Bag<Value>,
    server: Servers.Server)

  predicate DistinctKeys(ps: seq<(string, Value)>) {
    P.Distinct(P.KeysOf(ps))
  }

  predicate Valid(r: Request) {
    P.Valid(r.query) && P.Valid(r.request) && P.Valid(r.cookie) && P.Valid(r.file) && P.Valid(r.server)
  }

  /** The constructor: body parameters first, then query, cookie, file and server parameters. */
  function Create(requestParams: seq<(string, Value)>, queryParams: seq<(string, Value)>,
                  cookieParams: seq<(string, Value)>, fileParams: seq<(string, Value)>,
                  serverParams: seq<(string, Value)>): (r: Request)
    requires DistinctKeys(requestParams) && DistinctKeys(queryParams) && DistinctKeys(cookieParams)
    requires DistinctKeys(fileParams) && DistinctKeys(serverParams)
    ensures Valid(r)
    ensures GetQuery(r) == queryParams && GetPost(r) == requestParams
    ensures GetCookie(r) == cookieParams && GetFile(r) == fileParams && GetServer(r) == serverParams
  {
    Request(P.New(queryParams), P.New(requestParams), P.New(cookieParams), P.New(fileParams), P.New(serverParams))
  }

  /** `createFromGlobals`: the superglobals, with `$_POST` in the body position and `$_GET` in the query one. */
  function FromGlobals(post: seq<(string, Value)>, get: seq<(string, Value)>, cookie: seq<(string, Value)>,
                       files: seq<(string, Value)>, server: seq<(string, Value)>): (r: Request)
    requires DistinctKeys(post) && DistinctKeys(get) && DistinctKeys(cookie)
    requires DistinctKeys(files) && DistinctKeys(server)
    ensures Valid(r)
    ensures GetQuery(r) == get && GetPost(r) == post
    ensures GetCookie(r) == cookie && GetFile(r) == files && GetServer(r) == server
  {
    Create(post, get, cookie, files, server)
  }

  /** The getters hand out each view's whole array: every stored parameter once, and nothing else. */
  function GetQuery(r: Request): (ps: seq<(string, Value)>)
    ensures Valid(r) ==> P.ListsExactly(r.query, ps)
  {
    P.All(r.query)
  }

  function GetPost(r: Request): (ps: seq<(string, Value)>)
    ensures Valid(r) ==> P.ListsExactly(r.request, ps)
  {
    P.All(r.request)
  }

  function GetCookie(r: Request): (ps: seq<(string, Value)>)
    ensures Valid(r) ==> P.ListsExactly(r.cookie, ps)
  {
    P.All(r.cookie)
  }

  function GetFile(r: Request): (ps: seq<(string, Value)>)
    ensures Valid(r) ==> P.ListsExactly(r.file, ps)
  {
    P.All(r.file)
  }

  function GetServer(r: Request): (ps: seq<(string, Value)>)
    ensures Valid(r) ==> P.ListsExactly(r.server, ps)
  {
    P.All(r.server)
  }

  /** `getRequestUri`: delegated to the server view. */
  function RequestUri(r: Request): (u: Outcome<string>)
    ensures u == Servers.StringOr(r.server, "REQUEST_URI", "/")
  {
    Servers.RequestUri(r.server)
  }

  // ---------------------------------------------------------------------------
  // Properties
  // ---------------------------------------------------------------------------

  /**
   * The factory routes each superglobal to its view: the query view reads
   * `$_GET`, the body view `$_POST`, whatever the constructor's argument order.
   */
  lemma FromGlobalsRoutesSuperglobals(post: seq<(string, Value)>, get: seq<(string, Value)>,
                                      cookie: seq<(string, Value)>, files: seq<(string, Value)>,
                                      server: seq<(string, Value)>)
    requires DistinctKeys(post) && DistinctKeys(get) && DistinctKeys(cookie)
    requires DistinctKeys(files) && DistinctKeys(server)
    ensures var r := FromGlobals(post, get, cookie, files, server);
            && GetQuery(r) == get && GetPost(r) == post
            && GetCookie(r) == cookie && GetFile(r) == files && GetServer(r) == server
  {
  }

  /** A query or body parameter given at creation is read back through the validated `get`. */
  lemma CreatedParameterIsReadable(post: seq<(string, Value)>, get: seq<(string, Value)>, i: nat, j: nat)
    requires DistinctKeys(post) && DistinctKeys(get)
    requires i < |get| && Methods.Acceptable(get[i].1)
    requires j < |post| && Methods.Acceptable(post[j].1)
    ensures var r := FromGlobals(post, get, [], [], []);
            && Methods.Get(r.query, get[i].0, Null) == Ok(get[i].1)
            && Methods.Get(r.request, post[j].0, Null) == Ok(post[j].1)
  {
    P.ConstructThenAll(get, i, Null);
    P.ConstructThenAll(post, j, Null);
  }

  /** An unknown parameter reads as null through the validated `get`. */
  lemma UnknownParameterIsNull(r: Request, k: string)
    requires k !in P.ToMap(r.query)
    ensures Methods.Get(r.query, k, Null) == Ok(Null)
  {
  }

  /** With no `REQUEST_URI` the request reports "/"; a stored one is reported as it is. */
  lemma RequestUriDefault(uri: string)
    ensures RequestUri(Create([], [], [], [], [])) == Ok("/")
    ensures RequestUri(Create([], [], [], [], [("REQUEST_URI", Str(uri))])) == Ok(uri)
  {
  }
}
