/** The client's dashboard API: the decisions its HTTP handlers take before
    and after they call into the registry. A request is its method and its
    body as decoded JSON (None when the body is not JSON at all); a handler's
    answer is a status code, a body and, for login and logout, the session
    cookie. The client's shared state (the registry, whether the control link
    is up, the inspect log, the session table) is passed in and the new state
    handed back. */
module ClientApi {
  import opened Wrappers
  import Text
  import Protocol
  import ClientManager
  import AuthSessions
  import Base64Url

  // ---------------------------------------------------------------------------
  // Requests and replies
  // ---------------------------------------------------------------------------

  datatype Request = Request(httpMethod: string, body: Option<Protocol.Json>)

  /** What a handler writes: http.Error's plain text, the JSON decoder's own
      error text, a registry error's text, or one of the JSON answers. */
  datatype Body =
    | ErrorText(text: string)
    | DecoderError
    | ManagerError(error: ClientManager.Error)
    | Status(status: string)
    | DeletedCount(count: int)
    | Snapshot(connected: bool, tunnels: map<int, int>, domains: map<string, ClientManager.DomainEntry>)
    | Replayed(status: string, statusCode: int, replayedTo: string)
    | NoBody

  /** The `session_id` cookie a reply sets (path "/", HttpOnly). */
  datatype Cookie = Cookie(value: string, maxAge: int)

  datatype Reply = Reply(code: int, body: Body, cookie: Option<Cookie>)

  /** How long the browser keeps the session cookie, in seconds. */
  const CookieMaxAge: int := 86400

  function Fail(code: int, text: string): Reply
  {
    Reply(code, ErrorText(text), None)
  }

  function Answer(body: Body): Reply
  {
    Reply(200, body, None)
  }

  // ---------------------------------------------------------------------------
  // Middleware
  // ---------------------------------------------------------------------------

  /** The client process's view of the control connection: the registry
      (None before the first connection) and whether the link is up. */
  datatype Link = Link(manager: Option<ClientManager.Manager>, connected: bool)

  /** What the CORS and session middleware do before a protected handler. */
  datatype Gate =
    | Preflight
    | Unauthorized(sessions: AuthSessions.Sessions)
    | Admitted(sessions: AuthSessions.Sessions)

  /** A preflight OPTIONS request is answered 200 at once; any other request
      reaches the handler only with a live session, and is answered 401
      "Unauthorized" otherwise. The session check may drop an expired token. */
  function Guard(httpMethod: string, sessions: AuthSessions.Sessions, cookie: Option<string>, now: int): (g: Gate)
    ensures g.Preflight? <==> httpMethod == "OPTIONS"
    ensures g.Admitted? <==> httpMethod != "OPTIONS" && cookie.Some? && cookie.value in sessions
                             && now <= sessions[cookie.value]
    ensures g.Admitted? ==> g.sessions == sessions
    ensures g.Unauthorized? ==> forall t :: t in g.sessions ==> t in sessions && g.sessions[t] == sessions[t]
  {
    if httpMethod == "OPTIONS" then Preflight
    else
      var c := AuthSessions.ValidateSession(sessions, cookie, now);
      if c.valid then Admitted(c.sessions) else Unauthorized(c.sessions)
  }

  /** The reply of a request the middleware stops. */
  function GateReply(g: Gate): (r: Reply)
    requires !g.Admitted?
    ensures g.Preflight? ==> r.code == 200 && r.body == NoBody
    ensures g.Unauthorized? ==> r == Fail(401, "Unauthorized")
  {
    if g.Preflight? then Reply(200, NoBody, None) else Fail(401, "Unauthorized")
  }

  // ---------------------------------------------------------------------------
  // Login and logout
  // ---------------------------------------------------------------------------

  datatype LoginOutcome = LoginOutcome(reply: Reply, sessions: AuthSessions.Sessions)

  /** POST /api/login. `verify` is the bcrypt comparison with the stored hash
      and `random` the 32 bytes read for a new token. The CORS layer in front
      of every route answers an OPTIONS request before the handler runs. */
  function Login(req: Request, verify: string -> bool, sessions: AuthSessions.Sessions,
                 random: seq<Text.Byte>, now: int): (r: LoginOutcome)
    requires |random| == AuthSessions.TokenBytes
    ensures req.httpMethod == "OPTIONS" ==> r == LoginOutcome(GateReply(Preflight), sessions)
    ensures req.httpMethod != "POST" && req.httpMethod != "OPTIONS"
            ==> r == LoginOutcome(Fail(405, "Method not allowed"), sessions)
    ensures req.httpMethod == "POST" && (req.body.None? || Protocol.StrField(req.body.value, "password").None?)
            ==> r == LoginOutcome(Fail(400, "Invalid Payload"), sessions)
    ensures r.reply.code == 200 <==>
              req.httpMethod == "OPTIONS" ||
              (req.httpMethod == "POST" && req.body.Some?
               && Protocol.StrField(req.body.value, "password").Some?
               && verify(Protocol.StrField(req.body.value, "password").value))
    ensures req.httpMethod == "POST" && req.body.Some? && Protocol.StrField(req.body.value, "password").Some?
            && !verify(Protocol.StrField(req.body.value, "password").value)
            ==> r == LoginOutcome(Fail(401, "Invalid Password"), sessions)
    ensures r.reply.code == 200 && req.httpMethod == "POST" ==>
              r.reply.body == Status("ok") && r.reply.cookie.Some? && r.reply.cookie.value.maxAge == CookieMaxAge
              && AuthSessions.ValidateSession(r.sessions, Some(r.reply.cookie.value.value), now).valid
              && Base64Url.Decode(r.reply.cookie.value.value) == Some(random)
  {
    if req.httpMethod == "OPTIONS" then LoginOutcome(GateReply(Preflight), sessions)
    else if req.httpMethod != "POST" then LoginOutcome(Fail(405, "Method not allowed"), sessions)
    else if req.body.None? then LoginOutcome(Fail(400, "Invalid Payload"), sessions)
    else match Protocol.StrField(req.body.value, "password")
      case None => LoginOutcome(Fail(400, "Invalid Payload"), sessions)
      case Some(password) =>
        if !verify(password) then LoginOutcome(Fail(401, "Invalid Password"), sessions)
        else
          var created := AuthSessions.CreateSession(sessions, random, now);
          LoginOutcome(Reply(200, Status("ok"), Some(Cookie(created.token, CookieMaxAge))), created.sessions)
  }

  /** /api/logout, for any method but OPTIONS: the browser is told to drop
      the cookie. The session stays in the table until it expires. An OPTIONS
      request is answered by the CORS layer and leaves the cookie alone. */
  function Logout(httpMethod: string): (r: Reply)
    ensures r.code == 200
    ensures httpMethod == "OPTIONS" ==> r == GateReply(Preflight) && r.cookie.None?
    ensures httpMethod != "OPTIONS" ==> r.body == Status("ok") && r.cookie == Some(Cookie("", -1))
  {
    if httpMethod == "OPTIONS" then GateReply(Preflight)
    else Reply(200, Status("ok"), Some(Cookie("", -1)))
  }

  /** Logging in and then out leaves the new token valid on the server. */
  lemma LogoutKeepsSession(req: Request, verify: string -> bool, sessions: AuthSessions.Sessions,
                           random: seq<Text.Byte>, now: int, logoutMethod: string)
    requires |random| == AuthSessions.TokenBytes
    requires Login(req, verify, sessions, random, now).reply.cookie.Some?
    ensures var login := Login(req, verify, sessions, random, now);
            Logout(logoutMethod).code == 200
            && AuthSessions.ValidateSession(login.sessions, Some(login.reply.cookie.value.value), now).valid
  {
  }

  /** An OPTIONS request to the login or logout route gets the same answer
      as one to a protected route: the CORS layer's empty 200, with the
      session table untouched. */
  lemma PreflightEverywhere(req: Request, verify: string -> bool, sessions: AuthSessions.Sessions,
                            random: seq<Text.Byte>, cookie: Option<string>, now: int)
    requires |random| == AuthSessions.TokenBytes
    requires req.httpMethod == "OPTIONS"
    ensures var g := Guard(req.httpMethod, sessions, cookie, now);
            g.Preflight?
            && Login(req, verify, sessions, random, now) == LoginOutcome(GateReply(g), sessions)
            && Logout(req.httpMethod) == GateReply(g)
  {
  }

  // ---------------------------------------------------------------------------
  // Status
  // ---------------------------------------------------------------------------

  /** GET /api/status: copies of the registry's maps while connected and a
      registry exists, empty maps otherwise. */
  function StatusSnapshot(link: Link): (r: Body)
    ensures r.Snapshot? && r.connected == link.connected
    ensures link.connected && link.manager.Some? ==>
              r.tunnels == link.manager.value.tunnels && r.domains == link.manager.value.domains
    ensures !link.connected || link.manager.None? ==> r.tunnels == map[] && r.domains == map[]
  {
    if link.connected && link.manager.Some? then
      Snapshot(true, link.manager.value.tunnels, link.manager.value.domains)
    else Snapshot(link.connected, map[], map[])
  }

  // ---------------------------------------------------------------------------
  // Tunnels
  // ---------------------------------------------------------------------------

  /** A handler's reply and the registry it leaves. */
  datatype Handled = Handled(reply: Reply, manager: Option<ClientManager.Manager>)

  /** The answer to every tunnel or domain request while the registry is
      missing or the link is down. */
  const NotConnected: Reply := Fail(503, "Not connected to server")

  predicate Ready(link: Link)
  {
    link.manager.Some? && link.connected
  }

  /** The body of POST /api/tunnels: three string fields. */
  datatype AddBody = AddBody(publicPort: string, localPort: string, protocol: string)

  function DecodeAdd(j: Protocol.Json): (r: Option<AddBody>)
    ensures r.Some? <==> Protocol.StrField(j, "public_port").Some? && Protocol.StrField(j, "local_port").Some?
                         && Protocol.StrField(j, "protocol").Some?
    ensures r.Some? ==> r.value == AddBody(Protocol.StrField(j, "public_port").value,
                                           Protocol.StrField(j, "local_port").value,
                                           Protocol.StrField(j, "protocol").value)
  {
    match (Protocol.StrField(j, "public_port"), Protocol.StrField(j, "local_port"), Protocol.StrField(j, "protocol"))
    case (Some(p), Some(l), Some(q)) => Some(AddBody(p, l, q))
    case _ => None
  }

  /** Keys are matched without regard to case, so an upper-case body adds
      the same ranges, with the protocol left empty. */
  lemma UpperCaseAddBody()
    ensures DecodeAdd(Protocol.JObject([("PUBLIC_PORT", Protocol.JStr("8000-8001")),
                                        ("LOCAL_PORT", Protocol.JStr("3000-3001"))]))
            == Some(AddBody("8000-8001", "3000-3001", ""))
  {
    var pub, loc := Protocol.JStr("8000-8001"), Protocol.JStr("3000-3001");
    var e := [("PUBLIC_PORT", pub), ("LOCAL_PORT", loc)];
    UpperCaseMatches(pub, loc);
    assert Protocol.StrField(Protocol.JObject(e), "public_port") == Some("8000-8001");
    assert Protocol.StrField(Protocol.JObject(e), "local_port") == Some("3000-3001");
    assert Protocol.StrField(Protocol.JObject(e), "protocol") == Some("");
  }

  lemma UpperCaseMatches(pub: Protocol.Json, loc: Protocol.Json)
    ensures var e := [("PUBLIC_PORT", pub), ("LOCAL_PORT", loc)];
            Protocol.Matching(e, "public_port") == [pub]
            && Protocol.Matching(e, "local_port") == [loc]
            && Protocol.Matching(e, "protocol") == []
  {
    PortsUpperCase();
    ProtocolNotUpperPorts();
    Protocol.MatchingPair("PUBLIC_PORT", pub, "LOCAL_PORT", loc, "public_port");
    Protocol.MatchingPair("PUBLIC_PORT", pub, "LOCAL_PORT", loc, "local_port");
    Protocol.MatchingPair("PUBLIC_PORT", pub, "LOCAL_PORT", loc, "protocol");
  }

  lemma PortsUpperCase()
    ensures Protocol.KeyMatches("PUBLIC_PORT", "public_port") && !Protocol.KeyMatches("LOCAL_PORT", "public_port")
    ensures Protocol.KeyMatches("LOCAL_PORT", "local_port") && !Protocol.KeyMatches("PUBLIC_PORT", "local_port")
  {
    PublicUpperCase();
    LocalUpperCase();
    Protocol.FirstLetterDiffers("LOCAL_PORT", "public_port");
    Protocol.FirstLetterDiffers("PUBLIC_PORT", "local_port");
  }

  lemma PublicUpperCase()
    ensures Protocol.KeyMatches("PUBLIC_PORT", "public_port")
  {
    Protocol.CaseVariantMatches("PUBLIC_PORT", "public_port");
  }

  lemma LocalUpperCase()
    ensures Protocol.KeyMatches("LOCAL_PORT", "local_port")
  {
    Protocol.CaseVariantMatches("LOCAL_PORT", "local_port");
  }

  lemma ProtocolNotUpperPorts()
    ensures !Protocol.KeyMatches("PUBLIC_PORT", "protocol") && !Protocol.KeyMatches("LOCAL_PORT", "protocol")
  {
    Protocol.FirstLetterDiffers("LOCAL_PORT", "protocol");
    Protocol.FirstLetterSame("PUBLIC_PORT", "protocol");
    assert "PUBLIC_PORT"[1..] == "UBLIC_PORT" && "protocol"[1..] == "rotocol";
    Protocol.FirstLetterDiffers("UBLIC_PORT", "rotocol");
  }

  /** The body of DELETE /api/tunnels: one port, or a list of ports. */
  datatype DeleteBody = DeleteBody(publicPort: int, publicPorts: seq<int>)

  function DecodeDelete(j: Protocol.Json): (r: Option<DeleteBody>)
    ensures r.Some? <==> Protocol.IntField(j, "public_port").Some? && Protocol.IntListField(j, "public_ports").Some?
  {
    match (Protocol.IntField(j, "public_port"), Protocol.IntListField(j, "public_ports"))
    case (Some(p), Some(ps)) => Some(DeleteBody(p, ps))
    case _ => None
  }

  /** Remove the listed tunnels one after another. */
  function RemoveAll(m: ClientManager.Manager, ports: seq<int>, linkOk: bool): (r: ClientManager.Manager)
    ensures forall p :: p in r.tunnels <==> p in m.tunnels && p !in ports
    ensures forall p :: p in r.tunnels ==> r.tunnels[p] == m.tunnels[p]
    ensures forall d :: d in r.domains ==> d in m.domains && r.domains[d] == m.domains[d]
    ensures forall d :: d in m.domains && m.domains[d].publicPort !in ports ==> d in r.domains
    ensures linkOk ==> forall d :: d in r.domains ==> r.domains[d].publicPort !in ports
    decreases |ports|
  {
    if |ports| == 0 then m
    else RemoveAll(ClientManager.RemoveTunnel(m, ports[0], linkOk), ports[1..], linkOk)
  }

  /** The ports a delete request closes: the list when it is non-empty,
      otherwise the single port when it is positive, otherwise none. */
  function Targets(q: DeleteBody): seq<int>
  {
    if |q.publicPorts| > 0 then q.publicPorts
    else if q.publicPort > 0 then [q.publicPort]
    else []
  }

  datatype Deletion = Deletion(manager: ClientManager.Manager, count: int)

  /** Carry out a decoded delete request and count what was asked for. */
  function Delete(m: ClientManager.Manager, q: DeleteBody, linkOk: bool): (r: Deletion)
    ensures r.count == |Targets(q)|
    ensures r.manager == RemoveAll(m, Targets(q), linkOk)
  {
    if |q.publicPorts| > 0 then Deletion(RemoveAll(m, q.publicPorts, linkOk), |q.publicPorts|)
    else if q.publicPort > 0 then Deletion(ClientManager.RemoveTunnel(m, q.publicPort, linkOk), 1)
    else Deletion(m, 0)
  }

  /** /api/tunnels. POST adds a tunnel or a range of tunnels from the two
      strings; DELETE closes ports; any other method gets an empty 200. */
  function Tunnels(link: Link, env: ClientManager.Env, req: Request): (r: Handled)
    ensures !Ready(link) ==> r == Handled(NotConnected, link.manager)
    ensures r.reply.code == 400 <==>
              (Ready(link) && (req.httpMethod == "POST" || req.httpMethod == "DELETE")
               && (req.body.None?
                   || (req.httpMethod == "POST" && DecodeAdd(req.body.value).None?)
                   || (req.httpMethod == "DELETE" && DecodeDelete(req.body.value).None?)))
    ensures r.reply.code != 200 ==> r.manager == link.manager
    ensures Ready(link) && req.httpMethod == "POST" && req.body.Some? && DecodeAdd(req.body.value).Some? ==>
              var q := DecodeAdd(req.body.value).value;
              match ClientManager.AddRange(link.manager.value, env, q.publicPort, q.localPort)
              case Ok(m1) => r == Handled(Answer(Status("ok")), Some(m1))
              case Err(e) => r == Handled(Reply(500, ManagerError(e), None), link.manager)
    ensures Ready(link) && req.httpMethod == "DELETE" && req.body.Some? && DecodeDelete(req.body.value).Some? ==>
              var q := DecodeDelete(req.body.value).value;
              r == Handled(Answer(DeletedCount(|Targets(q)|)),
                           Some(RemoveAll(link.manager.value, Targets(q), env.linkOk)))
  {
    if !Ready(link) then Handled(NotConnected, link.manager)
    else
      var m := link.manager.value;
      if req.httpMethod == "POST" then
        if req.body.None? then Handled(Reply(400, DecoderError, None), link.manager)
        else match DecodeAdd(req.body.value)
          case None => Handled(Reply(400, DecoderError, None), link.manager)
          case Some(q) =>
            match ClientManager.AddRange(m, env, q.publicPort, q.localPort)
            case Err(e) => Handled(Reply(500, ManagerError(e), None), link.manager)
            case Ok(m1) => Handled(Answer(Status("ok")), Some(m1))
      else if req.httpMethod == "DELETE" then
        if req.body.None? then Handled(Reply(400, DecoderError, None), link.manager)
        else match DecodeDelete(req.body.value)
          case None => Handled(Reply(400, DecoderError, None), link.manager)
          case Some(q) =>
            var d := Delete(m, q, env.linkOk);
            Handled(Answer(DeletedCount(d.count)), Some(d.manager))
      else Handled(Reply(200, NoBody, None), link.manager)
  }

  /** A non-empty port list is removed in full, reported with its own length
      (a port listed twice counts twice), and the single-port field is
      ignored. */
  lemma BatchIgnoresSinglePort(m: ClientManager.Manager, p1: int, p2: int, ports: seq<int>, linkOk: bool)
    requires |ports| > 0
    ensures Delete(m, DeleteBody(p1, ports), linkOk) == Delete(m, DeleteBody(p2, ports), linkOk)
    ensures Delete(m, DeleteBody(p1, ports), linkOk).count == |ports|
    ensures forall p :: p in ports ==> p !in Delete(m, DeleteBody(p1, ports), linkOk).manager.tunnels
  {
  }

  /** Without a list, only a positive single port is removed. */
  lemma {:induction false} SinglePortDelete(m: ClientManager.Manager, p: int, linkOk: bool)
    ensures p > 0 ==> Delete(m, DeleteBody(p, []), linkOk)
                      == Deletion(ClientManager.RemoveTunnel(m, p, linkOk), 1)
    ensures p <= 0 ==> Delete(m, DeleteBody(p, []), linkOk) == Deletion(m, 0)
  {
    if p > 0 {
      assert RemoveAll(m, [p], linkOk) == RemoveAll(ClientManager.RemoveTunnel(m, p, linkOk), [], linkOk);
    }
  }

  /** Example: closing [7, 7] answers a count of two though one tunnel went. */
  lemma DuplicateCountsTwice()
    ensures var m := ClientManager.Manager(map[7 := 3000], map[]);
            Delete(m, DeleteBody(0, [7, 7]), true).count == 2
            && Delete(m, DeleteBody(0, [7, 7]), true).manager.tunnels == map[]
  {
    var m := ClientManager.Manager(map[7 := 3000], map[]);
    assert 7 !in Delete(m, DeleteBody(0, [7, 7]), true).manager.tunnels;
  }

  // ---------------------------------------------------------------------------
  // Domains
  // ---------------------------------------------------------------------------

  /** The body of POST /api/domains: all seven fields must decode, although
      the registry only uses the first three. */
  datatype DomainBody = DomainBody(domain: string, publicPort: int, mode: string, authUser: string,
                                   authPass: string, rateLimit: int, smartShield: bool)

  function DecodeDomain(j: Protocol.Json): (r: Option<DomainBody>)
    ensures r.Some? <==>
              Protocol.StrField(j, "domain").Some? && Protocol.IntField(j, "public_port").Some?
              && Protocol.StrField(j, "mode").Some? && Protocol.StrField(j, "auth_user").Some?
              && Protocol.StrField(j, "auth_pass").Some? && Protocol.IntField(j, "rate_limit").Some?
              && Protocol.BoolField(j, "smart_shield").Some?
    ensures r.Some? ==> r.value.domain == Protocol.StrField(j, "domain").value
                        && r.value.publicPort == Protocol.IntField(j, "public_port").value
                        && r.value.mode == Protocol.StrField(j, "mode").value
  {
    match (Protocol.StrField(j, "domain"), Protocol.IntField(j, "public_port"), Protocol.StrField(j, "mode"))
    case (Some(d), Some(p), Some(mode)) =>
      (match (Protocol.StrField(j, "auth_user"), Protocol.StrField(j, "auth_pass"),
              Protocol.IntField(j, "rate_limit"), Protocol.BoolField(j, "smart_shield"))
       case (Some(u), Some(pw), Some(rl), Some(sh)) => Some(DomainBody(d, p, mode, u, pw, rl, sh))
       case _ => None)
    case _ => None
  }

  /** /api/domains. POST maps a domain onto an active tunnel, DELETE unmaps
      it; a registry refusal is a 500 with its text. */
  function Domains(link: Link, linkOk: bool, req: Request): (r: Handled)
    ensures !Ready(link) ==> r == Handled(NotConnected, link.manager)
    ensures r.reply.code != 200 ==> r.manager == link.manager
    ensures r.reply.code == 500 ==> r.reply.body.ManagerError?
    ensures Ready(link) && req.httpMethod == "POST" && req.body.Some? && DecodeDomain(req.body.value).Some? ==>
              var q := DecodeDomain(req.body.value).value;
              match ClientManager.AddDomain(link.manager.value, q.domain, q.publicPort, q.mode, linkOk)
              case Ok(m1) => r == Handled(Answer(Status("ok")), Some(m1))
              case Err(e) => r == Handled(Reply(500, ManagerError(e), None), link.manager)
    ensures Ready(link) && req.httpMethod == "DELETE" && req.body.Some?
            && Protocol.StrField(req.body.value, "domain").Some? ==>
              var d := Protocol.StrField(req.body.value, "domain").value;
              match ClientManager.RemoveDomain(link.manager.value, d, linkOk)
              case Ok(m1) => r == Handled(Answer(Status("deleted")), Some(m1))
              case Err(e) => r == Handled(Reply(500, ManagerError(e), None), link.manager)
  {
    if !Ready(link) then Handled(NotConnected, link.manager)
    else
      var m := link.manager.value;
      if req.httpMethod == "POST" then
        if req.body.None? then Handled(Reply(400, DecoderError, None), link.manager)
        else match DecodeDomain(req.body.value)
          case None => Handled(Reply(400, DecoderError, None), link.manager)
          case Some(q) =>
            match ClientManager.AddDomain(m, q.domain, q.publicPort, q.mode, linkOk)
            case Err(e) => Handled(Reply(500, ManagerError(e), None), link.manager)
            case Ok(m1) => Handled(Answer(Status("ok")), Some(m1))
      else if req.httpMethod == "DELETE" then
        if req.body.None? then Handled(Reply(400, DecoderError, None), link.manager)
        else match Protocol.StrField(req.body.value, "domain")
          case None => Handled(Reply(400, DecoderError, None), link.manager)
          case Some(d) =>
            match ClientManager.RemoveDomain(m, d, linkOk)
            case Err(e) => Handled(Reply(500, ManagerError(e), None), link.manager)
            case Ok(m1) => Handled(Answer(Status("deleted")), Some(m1))
      else Handled(Reply(200, NoBody, None), link.manager)
  }

  /** A domain can only be mapped through the API onto a port that has a
      tunnel: otherwise the answer is a 500 and nothing changes. */
  lemma DomainNeedsTunnel(link: Link, linkOk: bool, req: Request)
    requires Ready(link) && req.httpMethod == "POST" && req.body.Some? && DecodeDomain(req.body.value).Some?
    requires DecodeDomain(req.body.value).value.publicPort !in link.manager.value.tunnels
    ensures Domains(link, linkOk, req)
            == Handled(Reply(500, ManagerError(ClientManager.NotActive(DecodeDomain(req.body.value).value.publicPort)), None),
                       link.manager)
  {
  }

  // ---------------------------------------------------------------------------
  // Replay
  // ---------------------------------------------------------------------------

  /** What http.NewRequest reads from a logged method and URL: the path and
      raw query of the parsed URL, or None when the method or URL is rejected. */
  datatype ParsedUrl = ParsedUrl(path: string, rawQuery: string)

  /** The local address a replay goes to. */
  function LocalBase(localPort: int): (s: string)
    ensures |s| > 0 && s[|s| - 1] != '/'
  {
    "http://127.0.0.1:" + Text.IntToString(localPort)
  }

  /** What follows the local base when a logged request is sent again: the
      parsed path and query, or, when parsing fails, the raw URL with a '/'
      put in front unless it is empty or already starts with one. */
  function TargetPath(url: string, parsed: Option<ParsedUrl>): (p: string)
    ensures parsed.None? ==> p == url || p == "/" + url
    ensures parsed.None? && |p| > 0 ==> p[0] == '/'
    ensures parsed.Some? ==> |parsed.value.path| <= |p| && p[..|parsed.value.path|] == parsed.value.path
    ensures parsed.Some? && '?' !in parsed.value.path ==> ('?' in p <==> parsed.value.rawQuery != "")
  {
    match parsed
    case Some(u) =>
      var q := if u.rawQuery != "" then "?" + u.rawQuery else "";
      assert (u.path + q)[..|u.path|] == u.path;
      assert '?' !in u.path ==> ('?' in u.path + q <==> '?' in q);
      u.path + q
    case None =>
      if |url| > 0 && url[0] != '/' then "/" + url else url
  }

  /** The URL a logged request is sent again to. */
  function TargetUrl(localPort: int, url: string, parsed: Option<ParsedUrl>): (r: string)
    ensures r == LocalBase(localPort) + TargetPath(url, parsed)
  {
    LocalBase(localPort) + TargetPath(url, parsed)
  }

  /** The body a replay sends: the logged one, unless it is empty or one of
      the capture placeholders. */
  function ReplayBody(reqBody: string): (r: Option<string>)
    ensures r.Some? <==> reqBody != "" && reqBody != Protocol.RequestTooLarge && reqBody != Protocol.BinaryRequest
    ensures r.Some? ==> r.value == reqBody
  {
    if reqBody != "" && reqBody != Protocol.RequestTooLarge && reqBody != Protocol.BinaryRequest
    then Some(reqBody) else None
  }

  /** The request the replay handler sends. */
  datatype Outgoing = Outgoing(httpMethod: string, url: string, body: Option<string>, headers: map<string, string>)

  /** How sending went: the local server's status line and code, or the
      failure to build the request or to get an answer. */
  datatype Sent = Sent(status: string, statusCode: int)
  datatype SendFailure = CreateFailed(reason: string) | DoFailed(reason: string)

  /** The handler's reply and the request it sent, if it got that far. */
  datatype ReplayOutcome = ReplayOutcome(reply: Reply, sent: Option<Outgoing>)

  /** The stages of a replay before anything is sent: which logged entry, and
      which local port. */
  datatype Target = Target(entry: Protocol.InspectPayload, localPort: int)

  function FindTarget(req: Request, logs: Option<seq<Protocol.InspectPayload>>,
                      manager: Option<ClientManager.Manager>): (r: Result<Target, Reply>)
    ensures req.httpMethod != "POST" ==> r == Err(Fail(405, "Method not allowed"))
    ensures req.httpMethod == "POST" && (req.body.None? || Protocol.StrField(req.body.value, "id").None?)
            ==> r == Err(Fail(400, "Invalid Payload"))
    ensures r.Ok? ==> req.httpMethod == "POST" && req.body.Some? && Protocol.StrField(req.body.value, "id").Some?
                      && logs.Some?
                      && Protocol.FirstWithId(logs.value, Protocol.StrField(req.body.value, "id").value).Some?
                      && r.value.entry == logs.value[Protocol.FirstWithId(logs.value, Protocol.StrField(req.body.value, "id").value).value]
                      && manager.Some? && r.value.entry.publicPort in manager.value.tunnels
                      && r.value.localPort == manager.value.tunnels[r.value.entry.publicPort]
    ensures req.httpMethod == "POST" && req.body.Some? && Protocol.StrField(req.body.value, "id").Some?
            && (logs.None? || Protocol.FirstWithId(logs.value, Protocol.StrField(req.body.value, "id").value).None?)
            ==> r == Err(Fail(404, "Log not found"))
    ensures r.Err? && r.error.code == 404 && r.error != Fail(404, "Log not found") ==>
              manager.Some? && logs.Some?
    ensures r.Err? && r.error.code == 503 ==> manager.None? && r.error == Fail(503, "Manager not ready")
  {
    if req.httpMethod != "POST" then Err(Fail(405, "Method not allowed"))
    else if req.body.None? then Err(Fail(400, "Invalid Payload"))
    else match Protocol.StrField(req.body.value, "id")
      case None => Err(Fail(400, "Invalid Payload"))
      case Some(id) =>
        if logs.None? then Err(Fail(404, "Log not found"))
        else match Protocol.FirstWithId(logs.value, id)
          case None => Err(Fail(404, "Log not found"))
          case Some(k) =>
            var entry := logs.value[k];
            if manager.None? then Err(Fail(503, "Manager not ready"))
            else if entry.publicPort !in manager.value.tunnels then
              Err(Fail(404, "Tunnel for public port " + Text.IntToString(entry.publicPort) + " not found"))
            else Ok(Target(entry, manager.value.tunnels[entry.publicPort]))
  }

  /** POST /api/replay. `parse` is http.NewRequest's reading of a method and
      URL; `send` builds and performs the outgoing request. */
  function Replay(req: Request, logs: Option<seq<Protocol.InspectPayload>>, manager: Option<ClientManager.Manager>,
                  parse: (string, string) -> Option<ParsedUrl>,
                  send: Outgoing -> Result<Sent, SendFailure>): (r: ReplayOutcome)
    ensures FindTarget(req, logs, manager).Err? ==> r == ReplayOutcome(FindTarget(req, logs, manager).error, None)
    ensures FindTarget(req, logs, manager).Ok? ==>
              var t := FindTarget(req, logs, manager).value;
              r.sent.Some?
              && r.sent.value.httpMethod == t.entry.httpMethod
              && r.sent.value.url == TargetUrl(t.localPort, t.entry.url, parse(t.entry.httpMethod, t.entry.url))
              && r.sent.value.body == ReplayBody(t.entry.reqBody)
              && r.sent.value.headers == t.entry.reqHeaders
    ensures r.reply.code == 200 ==> r.sent.Some? && send(r.sent.value).Ok?
                                    && r.reply.body == Replayed(send(r.sent.value).value.status,
                                                                send(r.sent.value).value.statusCode, r.sent.value.url)
    ensures r.sent.Some? && send(r.sent.value).Err? ==>
              match send(r.sent.value).error
              case CreateFailed(e) => r.reply == Fail(500, "Failed to create request: " + e)
              case DoFailed(e) => r.reply == Fail(502, "Replay failed: " + e)
  {
    match FindTarget(req, logs, manager)
    case Err(reply) => ReplayOutcome(reply, None)
    case Ok(t) =>
      var url := TargetUrl(t.localPort, t.entry.url, parse(t.entry.httpMethod, t.entry.url));
      var out := Outgoing(t.entry.httpMethod, url, ReplayBody(t.entry.reqBody), t.entry.reqHeaders);
      match send(out)
      case Err(CreateFailed(e)) => ReplayOutcome(Fail(500, "Failed to create request: " + e), Some(out))
      case Err(DoFailed(e)) => ReplayOutcome(Fail(502, "Replay failed: " + e), Some(out))
      case Ok(s) => ReplayOutcome(Answer(Replayed(s.status, s.statusCode, url)), Some(out))
  }

  /** A capture placeholder is never sent as a body. */
  lemma PlaceholderNotReplayed(e: Protocol.InspectPayload)
    requires e.reqBody == Protocol.RequestTooLarge || e.reqBody == Protocol.BinaryRequest
    ensures ReplayBody(e.reqBody).None?
  {
  }

  /** Example: with a parsed URL the query is kept behind a '?', and an
      unparsable relative URL gains the missing '/'. */
  lemma TargetExamples()
    ensures TargetPath("/a?b=1", Some(ParsedUrl("/a", "b=1"))) == "/a?b=1"
    ensures TargetPath("x y", None) == "/x y"
  {
  }
}
