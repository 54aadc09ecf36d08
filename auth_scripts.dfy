/** The connection test and the document comments update: both read the parameter file, ask
    for a token with the credentials it holds, and go on only when a token is received. */
module AuthScripts {
  import opened Wrappers
  import opened Text
  import opened Dicts
  import opened JsonValues
  import opened Params

  /** The answer to a request: a status code with the decoded body, or an exception raised by
      the request itself. */
  datatype HttpReply = HttpAnswer(code: int, body: Dict<string, Json>) | RequestError

  /** `raise_for_status` raises for client and server errors. */
  predicate RaisesForStatus(code: int) {
    400 <= code < 600
  }

  /** The request went through and `raise_for_status` let it pass. */
  predicate Passes(r: HttpReply) {
    r.HttpAnswer? && !RaisesForStatus(r.code)
  }

  /** A token was received: the token request passed and its `access_token` is truthy. */
  predicate TokenReceived(r: HttpReply) {
    Passes(r) && TruthyGet(r.body, "access_token")
  }

  /** A value of the parameter map inside an f-string: an absent one prints as `None`. */
  function Shown(v: Option<string>): string {
    match v
    case None => "None"
    case Some(s) => s
  }

  /** The form the token request posts: the four credentials as read (absent ones are `None`),
      the password grant and the admin scope. */
  function AuthPayload(params: ParamMap): Dict<string, Option<string>> {
    [("username", Get(params, "username")), ("password", Get(params, "password")),
     ("grant_type", Some("password")), ("client_id", Get(params, "client_id")),
     ("client_secret", Get(params, "client_secret")), ("scope", Some("admin"))]
  }

  function AuthUrl(params: ParamMap): string {
    "https://" + Shown(Get(params, "work_server")) + "/auth/oauth2/token"
  }

  /** A request sent by one of the scripts. */
  datatype Request =
    | PostForm(url: string, form: Dict<string, Option<string>>)
    | GetWith(url: string, headers: Dict<string, string>)
    | PatchWith(url: string, headers: Dict<string, string>, comments: string)

  /** The connection test: reads the parameters, posts the token request, and reports success
      exactly when a token is received. */
  method TestConnection(lines: seq<string>, reply: HttpReply) returns (request: Request, connected: bool)
    ensures request == PostForm(AuthUrl(ParseParams(lines)), AuthPayload(ParseParams(lines)))
    ensures connected <==> TokenReceived(reply)
  {
    var params := ReadParams(lines);
    request := PostForm(AuthUrl(params), AuthPayload(params));
    if reply.RequestError? || RaisesForStatus(reply.code) {
      return request, false;
    }
    var accessToken := Get(reply.body, "access_token");
    connected := accessToken.Some? && Truthy(accessToken.value);
  }

  /** A token that is absent, `None` or empty never counts as received. */
  lemma NoTokenNoConnection(reply: HttpReply)
    requires reply.HttpAnswer?
    requires var t := Get(reply.body, "access_token"); t.None? || t == Some(Null) || t == Some(Str(""))
    ensures !TokenReceived(reply)
  {
  }

  const CustomerId := "1"
  const LibraryId := "CH"
  const DocumentId := "12345"
  const NewComments := "Updated comments for the document."

  /** The pieces of the document URL between its slashes. */
  function DocumentUrlParts(server: string, customerId: string, libraryId: string, documentId: string): seq<string> {
    ["https:", "", server, "work", "api", "v2", "customers", customerId, "libraries", libraryId,
     "documents", documentId]
  }

  /** The document's endpoint `https://{server}/work/api/v2/customers/{customer}/libraries/{library}/documents/{document}`,
      written as the slash-join of its pieces. */
  function DocumentUrl(server: string, customerId: string, libraryId: string, documentId: string): string {
    Join("/", DocumentUrlParts(server, customerId, libraryId, documentId))
  }

  /** When no piece holds a slash, the pieces are recovered by splitting the URL at its
      slashes, so distinct documents have distinct URLs. */
  lemma DocumentUrlSplit(server: string, customerId: string, libraryId: string, documentId: string)
    requires '/' !in server && '/' !in customerId && '/' !in libraryId && '/' !in documentId
    ensures Split(DocumentUrl(server, customerId, libraryId, documentId), '/') ==
      DocumentUrlParts(server, customerId, libraryId, documentId)
  {
    var p := DocumentUrlParts(server, customerId, libraryId, documentId);
    assert forall x :: x in p ==> '/' !in x;
    SplitJoin(p, '/');
  }

  /** `str(access_token)` for a string token; other token values are not rendered. */
  function TokenText(v: Json): string {
    if v.Str? then v.s else ""
  }

  /** The document comments update: the token request, then the existence check, then the
      patch, each only when the one before succeeded; the patch sends the check's headers with
      the content type added. */
  method UpdateDocumentComments(lines: seq<string>, auth: HttpReply, check: HttpReply, patch: HttpReply)
    returns (sent: seq<Request>, updated: bool)
    ensures |sent| >= 1 && sent[0] == PostForm(AuthUrl(ParseParams(lines)), AuthPayload(ParseParams(lines)))
    ensures |sent| == 1 <==> !TokenReceived(auth)
    ensures |sent| >= 2 ==>
      var url := DocumentUrl(Shown(Get(ParseParams(lines), "work_server")), CustomerId, LibraryId, DocumentId);
      var headers := [("Authorization", "Bearer " + TokenText(Get(auth.body, "access_token").value)),
                      ("Accept", "application/json")];
      sent[1] == GetWith(url, headers) &&
      (|sent| == 3 <==> Passes(check)) &&
      (|sent| == 3 ==> sent[2] == PatchWith(url, headers + [("Content-Type", "application/json")], NewComments))
    ensures |sent| <= 3
    ensures updated <==> TokenReceived(auth) && Passes(check) && Passes(patch)
  {
    var params := ReadParams(lines);
    var workServer := Get(params, "work_server");
    sent := [PostForm(AuthUrl(params), AuthPayload(params))];
    if !Passes(auth) {
      return sent, false;
    }
    var accessToken := Get(auth.body, "access_token");
    if !(accessToken.Some? && Truthy(accessToken.value)) {
      return sent, false;
    }
    var docUrl := DocumentUrl(Shown(workServer), CustomerId, LibraryId, DocumentId);
    var headers := [("Authorization", "Bearer " + TokenText(accessToken.value)), ("Accept", "application/json")];
    sent := sent + [GetWith(docUrl, headers)];
    if !Passes(check) {
      return sent, false;
    }
    PutKeys(headers, "Content-Type", "application/json");
    headers := Put(headers, "Content-Type", "application/json");
    sent := sent + [PatchWith(docUrl, headers, NewComments)];
    updated := Passes(patch);
  }
}
