/** The conditional GET of the desired-state document (internal/desired/client.go): If-None-Match and
    304 as in sections 13.1.2 and 15.4.5 of RFC 9110. */
module DesiredClient {
  import opened Common
  import opened Fleet

  /** An absent header is "". */
  datatype Request = Request(bearer: string, ifNoneMatch: string)

  /** `body` is None when it cannot be decoded. */
  datatype Response = NoResponse | Response(status: int, etag: string, body: Option<Doc>)

  datatype Fetched = Changed(doc: Doc) | Unchanged | AuthRejected | FetchFailed

  datatype TokenSource = NoReloader | Unreadable | Token(value: string)

  /** The outcome and the tag remembered afterwards. */
  function Outcome(etag: string, r: Response): (Fetched, string) {
    if r.NoResponse? then (FetchFailed, etag)
    else if r.status == 304 then (Unchanged, etag)
    else if 200 <= r.status < 300 then
      if r.body.Some? && Validate(r.body.value) then (Changed(r.body.value), r.etag) else (FetchFailed, etag)
    else if r.status == 401 || r.status == 403 then (AuthRejected, etag)
    else (FetchFailed, etag)
  }

  predicate TokenChanges(token: string, source: TokenSource) { source.Token? && source.value != token }

  class Client {
    var token: string
    var etag: string

    constructor (token: string)
      ensures this.token == token && etag == ""
    {
      this.token, etag := token, "";
    }

    method Fetch(answer: Request -> Response) returns (f: Fetched)
      modifies this`etag
      ensures (f, etag) == Outcome(old(etag), answer(Request(token, old(etag))))
    {
      var resp := answer(Request(token, etag));
      if resp.NoResponse? { return FetchFailed; }
      if resp.status == 304 { return Unchanged; }
      if 200 <= resp.status < 300 {
        if resp.body.None? { return FetchFailed; }
        var doc := resp.body.value;
        if !Validate(doc) { return FetchFailed; }
        etag := resp.etag;
        return Changed(doc);
      }
      if resp.status == 401 || resp.status == 403 { return AuthRejected; }
      f := FetchFailed;
    }

    /** True when the token changed at its source. */
    method ReloadToken(source: TokenSource) returns (changed: bool)
      modifies this`token
      ensures changed == TokenChanges(old(token), source)
      ensures token == if changed then source.value else old(token)
    {
      if !source.Token? { return false; }
      if source.value == token { return false; }
      token := source.value;
      changed := true;
    }
  }

  // ---------------------------------------------------------------- a server with strong tags

  /** The document the server holds when it answers, and its tag. */
  datatype Server = Server(doc: Doc, etag: string)

  /** Equal tags mean equal documents (`named` is the document a tag stands for); 304 is sent only to
      a request that names the current tag; a decodable 2xx carries the current document and its tag,
      if any. Everything else may happen at any time. */
  ghost predicate Conforms(server: Server, named: string -> Doc, answer: Request -> Response) {
    && server.etag != "" && named(server.etag) == server.doc
    && forall req :: var r := answer(req);
         && (r.Response? && r.status == 304 ==> req.ifNoneMatch == server.etag)
         && (r.Response? && 200 <= r.status < 300 && r.body.Some? ==>
               r.body.value == server.doc && (r.etag == server.etag || r.etag == ""))
  }

  // ---------------------------------------------------------------- what an answer means

  /** A revision that is not negative, and policy numbers within bounds. */
  ghost predicate InBounds(doc: Doc) {
    && doc.revision >= 0 && 0 <= doc.healing.maxUnhealthy <= 1000
    && 0 <= doc.healing.nodeStartupTimeoutSeconds <= 1_000_000
    && 0 <= doc.healing.unhealthyAfterSeconds <= 1_000_000
    && 0 <= doc.healing.cooldownSeconds <= 1_000_000
  }

  /** A success with a readable document within bounds. */
  ghost predicate Delivers(r: Response, doc: Doc) {
    r.Response? && r.status / 100 == 2 && r.body == Some(doc) && InBounds(doc)
  }

  /** A document is taken over exactly when the answer delivers it, and then with the answer's tag, or none;
      304 leaves everything as it is, 401 and 403 are rejections, and whatever else comes is a failure. */
  lemma AnswerIff(etag: string, r: Response)
    ensures var (f, etag') := Outcome(etag, r);
            && (forall doc :: f == Changed(doc) <==> Delivers(r, doc))
            && (f == Unchanged <==> r.Response? && r.status == 304)
            && (f == AuthRejected <==> r.Response? && (r.status == 401 || r.status == 403))
            && etag' == (if f.Changed? then r.etag else etag)
  {
  }
}
