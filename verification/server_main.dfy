/** The server's own request path outside the control protocol: how it
    resolves its token, port and debug switch at start-up, how the public
    HTTP and HTTPS handlers route a request to a domain's tunnel, and how a
    proxied exchange is captured for the client's inspector.

    The reverse proxy, the TLS certificate manager, the login page's cookie
    signature and the upstream round trip are outside the model: their
    outcomes (whether the cookie is valid, the upstream response or error)
    are parameters. Bodies and header values are Go strings, so their
    characters are bytes. */
module ServerMain {
  import opened Wrappers
  import Text
  import Protocol
  import RateLimiter
  import ClientApi

  // ---------------------------------------------------------------------
  // Body capture
  // ---------------------------------------------------------------------

  /** How many leading bytes the binary sniffer looks at. */
  const SniffLength: nat := 512

  /** Bodies longer than this are not captured. */
  const CaptureLimit: nat := 4096

  /** A body counts as binary when a zero byte occurs among its first 512 bytes. */
  predicate IsBinary(data: string)
  {
    exists k :: 0 <= k < |data| && k < SniffLength && data[k] == 0 as char
  }

  /** The sniffer's loop: cut the data to its first 512 bytes, then stop at
      the first zero byte. */
  method SniffBinary(data: string) returns (binary: bool)
    ensures binary <==> IsBinary(data)
  {
    var head := data;
    if |head| > SniffLength {
      head := head[..SniffLength];
    }
    var i := 0;
    while i < |head|
      invariant 0 <= i <= |head| <= SniffLength
      invariant head == data[..|head|]
      invariant |head| == |data| || |head| == SniffLength
      invariant forall k :: 0 <= k < i ==> head[k] != 0 as char
    {
      if head[i] == 0 as char {
        assert data[i] == 0 as char;
        return true;
      }
      i := i + 1;
    }
    return false;
  }

  /** What the inspector records of a body: nothing for an empty one, a
      placeholder for one that is too large or binary, else the text itself. */
  function CaptureBody(body: string, tooLarge: string, binary: string): (r: string)
    ensures r == "" || r == tooLarge || r == binary || r == body
    ensures |body| == 0 ==> r == ""
    ensures |body| > CaptureLimit ==> r == tooLarge
    ensures 0 < |body| <= CaptureLimit ==> (r == body <==> !IsBinary(body) || binary == body)
    ensures 0 < |body| <= CaptureLimit && IsBinary(body) ==> r == binary
  {
    if |body| == 0 then ""
    else if |body| > CaptureLimit then tooLarge
    else if IsBinary(body) then binary
    else body
  }

  /** A captured request body that is replayed is the original body, and the
      replay handler sends a body exactly when the original was non-empty,
      within the limit, free of zero bytes at the start, and not itself one
      of the two placeholder texts. */
  lemma CaptureThenReplay(body: string)
    ensures var sent := ClientApi.ReplayBody(CaptureBody(body, Protocol.RequestTooLarge, Protocol.BinaryRequest));
            (sent.Some? <==> 0 < |body| <= CaptureLimit && !IsBinary(body)
                             && body != Protocol.RequestTooLarge && body != Protocol.BinaryRequest)
            && (sent.Some? ==> sent.value == body)
  {
  }

  /** The total length of a list of strings. */
  function SumLengths(vs: seq<string>): nat
    decreases |vs|
  {
    if |vs| == 0 then 0 else |vs[0]| + SumLengths(vs[1..])
  }

  /** Go's strings.Join(values, ", "), used for the values of one header. */
  function JoinValues(values: seq<string>): (r: string)
    ensures |values| == 0 ==> r == ""
    ensures |values| == 1 ==> r == values[0]
    ensures |values| >= 1 ==> values[0] <= r
    ensures |values| >= 1 ==> |r| == SumLengths(values) + 2 * (|values| - 1)
    ensures |values| >= 2 ==> r[|values[0]|..|values[0]| + 2] == ", "
    decreases |values|
  {
    if |values| == 0 then ""
    else if |values| == 1 then values[0]
    else values[0] + ", " + JoinValues(values[1..])
  }

  /** Where the i-th value starts in the joined text: after the values
      before it and one ", " for each of them. */
  function ValueOffset(vs: seq<string>, i: nat): nat
    requires i <= |vs|
  {
    SumLengths(vs[..i]) + 2 * i
  }

  /** The offset of a later value, seen from the list without its head. */
  lemma OffsetStep(vs: seq<string>, i: nat)
    requires 0 < i <= |vs|
    ensures ValueOffset(vs, i) == |vs[0]| + 2 + ValueOffset(vs[1..], i - 1)
  {
    assert vs[..i][1..] == vs[1..][..i - 1];
  }

  /** A slice of the part after a prefix. */
  lemma SliceAfter(pre: string, t: string, lo: nat, hi: nat)
    requires lo <= hi <= |t|
    ensures (pre + t)[|pre| + lo..|pre| + hi] == t[lo..hi]
  {
  }

  /** Every value stands in the joined text at its offset. */
  lemma {:induction false} JoinHoldsValues(vs: seq<string>, i: nat)
    requires i < |vs|
    ensures ValueOffset(vs, i) + |vs[i]| <= |JoinValues(vs)|
    ensures JoinValues(vs)[ValueOffset(vs, i)..ValueOffset(vs, i) + |vs[i]|] == vs[i]
    decreases |vs|
  {
    if i == 0 {
      assert vs[..0] == [];
    } else {
      JoinHoldsValues(vs[1..], i - 1);
      OffsetStep(vs, i);
      var o := ValueOffset(vs[1..], i - 1);
      SliceAfter(vs[0] + ", ", JoinValues(vs[1..]), o, o + |vs[i]|);
    }
  }

  /** Every value but the last is followed by ", " in the joined text. */
  lemma {:induction false} JoinHoldsSeparators(vs: seq<string>, i: nat)
    requires i + 1 < |vs|
    ensures ValueOffset(vs, i) + |vs[i]| + 2 <= |JoinValues(vs)|
    ensures JoinValues(vs)[ValueOffset(vs, i) + |vs[i]|..ValueOffset(vs, i) + |vs[i]| + 2] == ", "
    decreases |vs|
  {
    if i == 0 {
      assert vs[..0] == [];
    } else {
      JoinHoldsSeparators(vs[1..], i - 1);
      OffsetStep(vs, i);
      var o := ValueOffset(vs[1..], i - 1) + |vs[i]|;
      SliceAfter(vs[0] + ", ", JoinValues(vs[1..]), o, o + 2);
    }
  }

  /** Appending a value to a non-empty list appends ", " and the value. */
  lemma {:induction false} JoinAppend(vs: seq<string>, v: string)
    requires |vs| >= 1
    ensures JoinValues(vs + [v]) == JoinValues(vs) + ", " + v
    decreases |vs|
  {
    if |vs| == 1 {
      assert (vs + [v])[1..] == [v];
    } else {
      assert (vs + [v])[1..] == vs[1..] + [v];
      JoinAppend(vs[1..], v);
    }
  }

  type Header = map<string, seq<string>>

  /** Each header name with its values joined. */
  function FlattenHeader(h: Header): (r: map<string, string>)
    ensures r.Keys == h.Keys
    ensures forall k :: k in h ==> r[k] == JoinValues(h[k])
    ensures forall k :: k in h && |h[k]| == 1 ==> r[k] == h[k][0]
    ensures forall k :: k in h && |h[k]| >= 1 ==> |r[k]| == SumLengths(h[k]) + 2 * (|h[k]| - 1)
  {
    map k | k in h :: JoinValues(h[k])
  }

  /** The request as the proxy hands it to the upstream transport. */
  datatype Outbound = Outbound(httpMethod: string, url: string, headers: Header, body: string,
                               remoteAddr: string)

  /** The upstream's answer, when there is one. */
  datatype Upstream = Upstream(statusCode: int, headers: Header, body: string)

  /** The inspector record of one proxied exchange. `startMs` and `durationMs`
      are the clock readings, `id` the fresh UUID text; `res` is the upstream
      response and `err` the transport error, either of which may be absent. */
  function Capture(id: string, startMs: int, durationMs: int, publicPort: int, req: Outbound,
                   res: Option<Upstream>, err: Option<string>): (p: Protocol.InspectPayload)
    ensures p.id == id && p.timestamp == startMs && p.durationMs == durationMs
    ensures p.publicPort == publicPort && p.clientIp == req.remoteAddr
    ensures p.httpMethod == req.httpMethod && p.url == req.url
    ensures p.reqHeaders == FlattenHeader(req.headers) && p.reqHeaders.Keys == req.headers.Keys
    ensures p.reqBody == CaptureBody(req.body, Protocol.RequestTooLarge, Protocol.BinaryRequest)
    ensures res.Some? ==> p.status == res.value.statusCode
                          && p.resHeaders == FlattenHeader(res.value.headers)
                          && p.resHeaders.Keys == res.value.headers.Keys
                          && p.resBody == CaptureBody(res.value.body, Protocol.ResponseTooLarge,
                                                      Protocol.BinaryResponse)
    ensures res.None? && err.Some? ==> p.status == 502 && p.resHeaders == map[]
                                       && p.resBody == CaptureBody(err.value, Protocol.ResponseTooLarge,
                                                                   Protocol.BinaryResponse)
    ensures res.None? && err.None? ==> p.status == 0 && p.resHeaders == map[] && p.resBody == ""
  {
    var status := if res.Some? then res.value.statusCode else if err.Some? then 502 else 0;
    var resBody := if res.Some? then res.value.body else if err.Some? then err.value else "";
    var resHeaders := if res.Some? then FlattenHeader(res.value.headers) else map[];
    Protocol.InspectPayload(
      id, startMs, req.httpMethod, req.url, FlattenHeader(req.headers),
      CaptureBody(req.body, Protocol.RequestTooLarge, Protocol.BinaryRequest),
      status, resHeaders,
      CaptureBody(resBody, Protocol.ResponseTooLarge, Protocol.BinaryResponse),
      durationMs, req.remoteAddr, publicPort)
  }

  /** When the upstream cannot be reached, the dashboard sees a 502 whose
      body is the transport's error text. */
  lemma UnreachableIs502(id: string, startMs: int, durationMs: int, publicPort: int, req: Outbound)
    ensures var p := Capture(id, startMs, durationMs, publicPort, req, None,
                             Some("dial tcp 127.0.0.1:3000: connection refused"));
            p.status == 502 && p.resBody == "dial tcp 127.0.0.1:3000: connection refused"
  {
    var e := "dial tcp 127.0.0.1:3000: connection refused";
    assert !IsBinary(e);
  }

  // ---------------------------------------------------------------------
  // Start-up settings
  // ---------------------------------------------------------------------

  /** The command-line flags. */
  datatype Flags = Flags(port: int, token: string, debug: bool)

  /** The settings file's contents; Go's zero value (empty token, port 0,
      debug off) when the file is missing or does not decode. */
  datatype ServerConfig = ServerConfig(token: string, port: int, debug: bool)

  /** The settings the server runs with, and the configuration written back
      to disk when a token had to be generated. */
  datatype Settings = Settings(token: string, port: int, debug: bool, saved: Option<ServerConfig>)

  predicate IsHexDigit(c: char) { '0' <= c <= '9' || 'a' <= c <= 'f' }

  function HexDigit(n: nat): (c: char)
    requires n < 16
    ensures IsHexDigit(c) && HexValue(c) == n
  {
    if n < 10 then ('0' as int + n) as char else ('a' as int + n - 10) as char
  }

  function HexValue(c: char): (n: nat)
    requires IsHexDigit(c)
    ensures n < 16
  {
    if c <= '9' then c as int - '0' as int else c as int - 'a' as int + 10
  }

  /** fmt.Sprintf("%x", b): two lower-case hex digits per byte, high digit first. */
  function Hex(b: seq<Text.Byte>): (s: string)
    ensures |s| == 2 * |b|
    decreases |b|
  {
    if |b| == 0 then "" else [HexDigit(b[0] / 16), HexDigit(b[0] % 16)] + Hex(b[1..])
  }

  /** Byte `i` of `b` can be read back from digits 2i and 2i+1 of its hex text. */
  lemma {:induction false} HexDigitsAt(b: seq<Text.Byte>, i: nat)
    requires i < |b|
    ensures IsHexDigit(Hex(b)[2 * i]) && IsHexDigit(Hex(b)[2 * i + 1])
    ensures 16 * HexValue(Hex(b)[2 * i]) + HexValue(Hex(b)[2 * i + 1]) == b[i]
    decreases i
  {
    if i > 0 {
      HexDigitsAt(b[1..], i - 1);
      assert Hex(b)[2 * i] == Hex(b[1..])[2 * (i - 1)];
      assert Hex(b)[2 * i + 1] == Hex(b[1..])[2 * (i - 1) + 1];
    }
  }

  /** The hex text is made of hex digits and decodes back to the bytes. */
  lemma HexDecodes(b: seq<Text.Byte>)
    ensures forall i :: 0 <= i < |Hex(b)| ==> IsHexDigit(Hex(b)[i])
    ensures forall i :: 0 <= i < |b| ==> 16 * HexValue(Hex(b)[2 * i]) + HexValue(Hex(b)[2 * i + 1]) == b[i]
  {
    forall i | 0 <= i < |b|
      ensures IsHexDigit(Hex(b)[2 * i]) && IsHexDigit(Hex(b)[2 * i + 1])
              && 16 * HexValue(Hex(b)[2 * i]) + HexValue(Hex(b)[2 * i + 1]) == b[i]
    {
      HexDigitsAt(b, i);
    }
    forall i | 0 <= i < |Hex(b)|
      ensures IsHexDigit(Hex(b)[i])
    {
      HexDigitsAt(b, i / 2);
      assert i == 2 * (i / 2) || i == 2 * (i / 2) + 1;
    }
  }

  /** Random bytes behind a generated token. */
  const GeneratedTokenBytes: nat := 16

  /** Resolve the token, port and debug switch from the flags, the settings
      file and, when neither supplies a token, `random` bytes turned into a
      new token. A generated token is saved together with the flag values,
      which then replace the file's port and debug switch. */
  function Resolve(flags: Flags, file: ServerConfig, random: seq<Text.Byte>): (r: Settings)
    requires |random| == GeneratedTokenBytes
    ensures r.token != ""
    ensures flags.token != "" ==> r.token == flags.token
    ensures flags.token == "" && file.token != "" ==> r.token == file.token
    ensures r.saved.Some? <==> flags.token == "" && file.token == ""
    ensures r.saved.Some? ==> |r.token| == 32 && r.saved.value == ServerConfig(r.token, flags.port, flags.debug)
    ensures flags.port != Protocol.DefaultControlPort ==> r.port == flags.port
    ensures r.saved.None? && file.port != 0 ==> r.port == file.port || r.port == flags.port
    ensures r.saved.None? && flags.port == Protocol.DefaultControlPort && file.port != 0 ==> r.port == file.port
    ensures (r.saved.Some? || file.port == 0) ==> r.port == flags.port
    ensures r.debug <==> flags.debug || (r.saved.None? && file.debug)
  {
    var token := if flags.token != "" then flags.token else file.token;
    var cfg := if token == "" then ServerConfig(Hex(random), flags.port, flags.debug) else file;
    var port := if flags.port == Protocol.DefaultControlPort && cfg.port != 0 then cfg.port else flags.port;
    var debug := flags.debug || cfg.debug;
    Settings(if token == "" then cfg.token else token, port, debug, if token == "" then Some(cfg) else None)
  }

  /** The generated token is the hex text of the random bytes, so each byte
      can be read back from it. */
  lemma GeneratedTokenEncodesRandom(flags: Flags, file: ServerConfig, random: seq<Text.Byte>)
    requires |random| == GeneratedTokenBytes && flags.token == "" && file.token == ""
    ensures var t := Resolve(flags, file, random).token;
            (forall i :: 0 <= i < |t| ==> IsHexDigit(t[i]))
            && forall i :: 0 <= i < |random| ==> 16 * HexValue(t[2 * i]) + HexValue(t[2 * i + 1]) == random[i]
  {
    HexDecodes(random);
  }

  /** Without a token anywhere, the port and debug switch in the file are
      ignored: a file asking for port 8000 with debugging on still yields the
      default port and no debugging when no flags are given. */
  lemma GeneratedTokenIgnoresFile(random: seq<Text.Byte>)
    requires |random| == GeneratedTokenBytes
    ensures var r := Resolve(Flags(Protocol.DefaultControlPort, "", false), ServerConfig("", 8000, true), random);
            r.port == Protocol.DefaultControlPort && !r.debug
  {
  }

  // ---------------------------------------------------------------------
  // Host names
  // ---------------------------------------------------------------------

  /** The position of the first `c` in `s`. */
  function IndexOf(s: string, c: char): (r: Option<nat>)
    ensures r.None? <==> c !in s
    ensures r.Some? ==> r.value < |s| && s[r.value] == c && c !in s[..r.value]
    decreases |s|
  {
    if |s| == 0 then None
    else if s[0] == c then Some(0)
    else match IndexOf(s[1..], c)
      case None => None
      case Some(k) => assert s[..k + 1] == [s[0]] + s[1..][..k]; Some(k + 1)
  }

  /** The position of the last `c` in `s`. */
  function LastIndexOf(s: string, c: char): (r: Option<nat>)
    ensures r.None? <==> c !in s
    ensures r.Some? ==> r.value < |s| && s[r.value] == c && c !in s[r.value + 1..]
    decreases |s|
  {
    if |s| == 0 then None
    else if s[|s| - 1] == c then Some(|s| - 1)
    else
      var r := LastIndexOf(s[..|s| - 1], c);
      if r.Some? then assert s[r.value + 1..] == s[..|s| - 1][r.value + 1..] + [s[|s| - 1]]; r
      else assert s == s[..|s| - 1] + [s[|s| - 1]]; r
  }

  /** The host part of Go's net.SplitHostPort, or None when it reports an
      error: the port follows the last ':'; a host in brackets (an IPv6
      address) must close right before that ':'; an unbracketed host may not
      contain ':'; no stray brackets may remain. */
  function SplitHost(hostport: string): (r: Option<string>)
    ensures r.Some? ==> ':' in hostport
    ensures r.Some? && hostport[0] != '[' ==> r.value + [':'] <= hostport && ':' !in r.value
    ensures r.Some? && hostport[0] == '[' ==> "[" + r.value + "]:" <= hostport
  {
    match LastIndexOf(hostport, ':')
    case None => None
    case Some(i) =>
      if hostport[0] == '[' then
        match IndexOf(hostport, ']')
        case None => None
        case Some(end) =>
          if end + 1 != i then None
          else
            var host := hostport[1..end];
            if '[' in hostport[1..] || ']' in hostport[end + 1..] then None
            else (assert hostport[..end + 2] == "[" + host + "]:"; Some(host))
      else
        var host := hostport[..i];
        if ':' in host || '[' in hostport || ']' in hostport then None
        else (assert hostport[..i + 1] == host + [':']; Some(host))
  }

  /** The name a request is routed by: the Host header without its port, or
      the whole header when it does not split. */
  function RequestHost(hostport: string): (h: string)
    ensures SplitHost(hostport).None? ==> h == hostport
    ensures SplitHost(hostport).Some? ==> h == SplitHost(hostport).value && |h| < |hostport|
  {
    match SplitHost(hostport)
    case Some(h) => h
    case None => hostport
  }

  /** A plain host name followed by a port is routed by the name alone; a
      name without a port is routed as it is. */
  lemma {:induction false} HostOfHostPort(name: string, port: string)
    requires ':' !in name && '[' !in name && ']' !in name
    requires ':' !in port && '[' !in port && ']' !in port
    ensures RequestHost(name + ":" + port) == name
    ensures RequestHost(name) == name
  {
    var hp := name + ":" + port;
    var i := LastIndexOf(hp, ':');
    assert hp[|name|] == ':';
    assert i.Some?;
    assert i.value == |name|;
    assert hp[..i.value] == name;
    if |name| > 0 {
      assert hp[0] == name[0];
    }
    assert forall k :: 0 <= k < |hp| ==> hp[k] != '[' && hp[k] != ']' by {
      forall k | 0 <= k < |hp|
        ensures hp[k] != '[' && hp[k] != ']'
      {
        if k < |name| { assert hp[k] == name[k]; }
        else if k > |name| { assert hp[k] == port[k - |name| - 1]; }
      }
    }
  }

  /** A bracketed name followed by a port (an IPv6 literal with its port)
      is routed by the name inside the brackets. */
  lemma {:induction false} HostOfBracketed(name: string, port: string)
    requires '[' !in name && ']' !in name
    requires ':' !in port && '[' !in port && ']' !in port
    ensures SplitHost("[" + name + "]:" + port) == Some(name)
    ensures RequestHost("[" + name + "]:" + port) == name
  {
    var hp := "[" + name + "]:" + port;
    var colon := |name| + 2;
    assert hp[colon] == ':';
    assert hp[colon + 1..] == port;
    assert LastIndexOf(hp, ':') == Some(colon);
    assert hp[|name| + 1] == ']';
    assert hp[..|name| + 1] == "[" + name;
    assert ']' !in hp[..|name| + 1];
    assert IndexOf(hp, ']') == Some(|name| + 1);
    assert hp[1..|name| + 1] == name;
    assert hp[1..] == name + "]:" + port;
    assert hp[|name| + 2..] == ":" + port;
  }

  /** The client address the limiter counts: the remote address without its
      port, or "" when it does not split (Go's error result). */
  function ClientIp(remoteAddr: string): (ip: string)
    ensures SplitHost(remoteAddr).None? ==> ip == ""
    ensures SplitHost(remoteAddr).Some? ==> ip == SplitHost(remoteAddr).value && |ip| < |remoteAddr|
  {
    match SplitHost(remoteAddr)
    case Some(h) => h
    case None => ""
  }

  // ---------------------------------------------------------------------
  // Routing
  // ---------------------------------------------------------------------

  /** A domain's routing settings, with the rate limit and credentials the
      handlers read besides its public port and mode. */
  datatype RouteEntry = RouteEntry(publicPort: int, mode: string, rateLimit: int, authUser: string,
                                   authPass: string)

  /** The mode in which a domain is served over plain HTTP only. */
  const HttpOnly: string := "http"

  /** A public request: its Host header, remote address, path and raw query. */
  datatype Incoming = Incoming(host: string, remoteAddr: string, path: string, rawQuery: string)

  /** What a handler does with a request: 404 "Domain not mapped", 429 "Too
      Many Requests", 403 "HTTPS not enabled for this domain", the login page
      (401), proxying to the tunnel's public port with the routed host name,
      or a 307 redirect. */
  datatype Route = NotMapped | TooManyRequests | HttpsDisabled | LoginPage
                 | Proxy(publicPort: int, host: string) | Redirect(target: string)

  /** A route and the limiter state after the request. */
  datatype Routed = Routed(route: Route, visitors: RateLimiter.Visitors)

  /** Whether the limiter lets the request through: always when the domain
      sets no limit, else as the limiter decides for the client's address. */
  predicate Passes(e: RouteEntry, req: Incoming, vs: RateLimiter.Visitors, now: int)
  {
    e.rateLimit <= 0 || RateLimiter.Allow(vs, ClientIp(req.remoteAddr), e.rateLimit, now).allowed
  }

  /** The limiter state after consulting it, or unchanged when the domain sets no limit. */
  function Counted(e: RouteEntry, req: Incoming, vs: RateLimiter.Visitors, now: int): (r: RateLimiter.Visitors)
    ensures e.rateLimit <= 0 ==> r == vs
    ensures forall ip :: ip != ClientIp(req.remoteAddr) ==> (ip in r <==> ip in vs)
    ensures forall ip :: ip != ClientIp(req.remoteAddr) && ip in vs ==> r[ip] == vs[ip]
  {
    if e.rateLimit > 0 then RateLimiter.Allow(vs, ClientIp(req.remoteAddr), e.rateLimit, now).visitors else vs
  }

  /** Where the login check leads once a request is let in: the login page
      when the domain has a user name and the request's cookie is not valid
      for it, else the proxy. */
  function Authenticated(e: RouteEntry, host: string, cookieValid: bool): (r: Route)
    ensures r == LoginPage <==> e.authUser != "" && !cookieValid
    ensures r != LoginPage ==> r == Proxy(e.publicPort, host)
  {
    if e.authUser != "" && !cookieValid then LoginPage else Proxy(e.publicPort, host)
  }

  /** The HTTPS handler. `cookieValid` is whether the request carries a
      valid login cookie for the domain's credentials. */
  function ServeHttps(table: map<string, RouteEntry>, req: Incoming, vs: RateLimiter.Visitors, now: int,
                      cookieValid: bool): (r: Routed)
    ensures r.route == NotMapped <==> RequestHost(req.host) !in table
    ensures RequestHost(req.host) !in table ==> r.visitors == vs
    ensures RequestHost(req.host) in table ==>
              var e := table[RequestHost(req.host)];
              r.visitors == Counted(e, req, vs, now)
              && (r.route == TooManyRequests <==> !Passes(e, req, vs, now))
              && (r.route == HttpsDisabled <==> Passes(e, req, vs, now) && e.mode == HttpOnly)
              && (r.route == LoginPage <==> Passes(e, req, vs, now) && e.mode != HttpOnly
                                            && e.authUser != "" && !cookieValid)
              && (r.route.Proxy? <==> Passes(e, req, vs, now) && e.mode != HttpOnly
                                      && (e.authUser == "" || cookieValid))
              && (r.route.Proxy? ==> r.route == Proxy(e.publicPort, RequestHost(req.host)))
    ensures !r.route.Redirect?
  {
    var host := RequestHost(req.host);
    if host !in table then Routed(NotMapped, vs)
    else
      var e := table[host];
      var vs' := Counted(e, req, vs, now);
      if !Passes(e, req, vs, now) then Routed(TooManyRequests, vs')
      else if e.mode == HttpOnly then Routed(HttpsDisabled, vs')
      else Routed(Authenticated(e, host, cookieValid), vs')
  }

  /** The address the HTTP handler redirects to: the Host header as it came,
      port included, then the path and the query if there is one. */
  function RedirectTarget(hostport: string, path: string, rawQuery: string): (t: string)
    ensures "https://" + hostport + path <= t
    ensures |rawQuery| == 0 ==> t == "https://" + hostport + path
    ensures |rawQuery| > 0 ==> t[|"https://" + hostport + path|..] == "?" + rawQuery
  {
    "https://" + hostport + path + (if |rawQuery| > 0 then "?" + rawQuery else "")
  }

  /** The plain HTTP handler: the same mapping and limiter checks as HTTPS;
      an HTTP-only domain then goes through the login check to the proxy,
      and every other domain is redirected to HTTPS without a login check. */
  function ServeHttp(table: map<string, RouteEntry>, req: Incoming, vs: RateLimiter.Visitors, now: int,
                     cookieValid: bool): (r: Routed)
    ensures r.route == NotMapped <==> RequestHost(req.host) !in table
    ensures RequestHost(req.host) !in table ==> r.visitors == vs
    ensures RequestHost(req.host) in table ==>
              var e := table[RequestHost(req.host)];
              r.visitors == Counted(e, req, vs, now)
              && (r.route == TooManyRequests <==> !Passes(e, req, vs, now))
              && (r.route.Redirect? <==> Passes(e, req, vs, now) && e.mode != HttpOnly)
              && (r.route.Redirect? ==> r.route.target == RedirectTarget(req.host, req.path, req.rawQuery))
              && (r.route == LoginPage <==> Passes(e, req, vs, now) && e.mode == HttpOnly
                                            && e.authUser != "" && !cookieValid)
              && (r.route.Proxy? <==> Passes(e, req, vs, now) && e.mode == HttpOnly
                                      && (e.authUser == "" || cookieValid))
    ensures r.route != HttpsDisabled
  {
    var host := RequestHost(req.host);
    if host !in table then Routed(NotMapped, vs)
    else
      var e := table[host];
      var vs' := Counted(e, req, vs, now);
      if !Passes(e, req, vs, now) then Routed(TooManyRequests, vs')
      else if e.mode == HttpOnly then Routed(Authenticated(e, host, cookieValid), vs')
      else Routed(Redirect(RedirectTarget(req.host, req.path, req.rawQuery)), vs')
  }

  /** The limiter comes before the mode check: an HTTP-only domain whose
      client is over its limit gets 429 over HTTPS, not 403. */
  lemma LimitBeforeMode(table: map<string, RouteEntry>, req: Incoming, vs: RateLimiter.Visitors, now: int,
                        cookieValid: bool)
    requires RequestHost(req.host) in table
    requires table[RequestHost(req.host)].mode == HttpOnly && !Passes(table[RequestHost(req.host)], req, vs, now)
    ensures ServeHttps(table, req, vs, now, cookieValid).route == TooManyRequests
  {
  }

  /** A request HTTP redirects is one the HTTPS handler for the same host
      will not refuse as unmapped or HTTP-only, whatever the limiter holds
      by then. */
  lemma RedirectLeadsToHttps(table: map<string, RouteEntry>, req: Incoming, vs: RateLimiter.Visitors, now: int,
                             cookieValid: bool, later: Incoming, vs2: RateLimiter.Visitors, now2: int,
                             cookieValid2: bool)
    requires ServeHttp(table, req, vs, now, cookieValid).route.Redirect?
    requires later.host == req.host
    ensures var r := ServeHttps(table, later, vs2, now2, cookieValid2).route;
            r != NotMapped && r != HttpsDisabled
  {
  }

  /** Each handler serves one side of a domain: a request that one of them
      proxies is redirected or refused by the other. */
  lemma OneSideProxies(table: map<string, RouteEntry>, req: Incoming, vs: RateLimiter.Visitors, now: int,
                       cookieValid: bool)
    ensures !(ServeHttps(table, req, vs, now, cookieValid).route.Proxy?
              && ServeHttp(table, req, vs, now, cookieValid).route.Proxy?)
  {
  }

  /** The redirect keeps the port of the Host header while the table lookup
      drops it: "example.com:80" is routed as "example.com" and redirected
      to "https://example.com:80" followed by the path. */
  lemma RedirectKeepsPort(name: string, port: string, path: string)
    requires ':' !in name && '[' !in name && ']' !in name
    requires ':' !in port && '[' !in port && ']' !in port
    ensures RequestHost(name + ":" + port) == name
    ensures RedirectTarget(name + ":" + port, path, "") == "https://" + name + ":" + port + path
  {
    HostOfHostPort(name, port);
  }
}
