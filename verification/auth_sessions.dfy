/** The dashboard's login sessions: a table from token to expiry time, filled
    by a successful login and consulted on every dashboard request through
    the `session_id` cookie. Times are integers in nanoseconds, the unit of
    Go's time package; the random bytes of a token and the current time are
    parameters. */
module AuthSessions {
  import opened Wrappers
  import Base64Url
  import Text

  /** Random bytes behind one token. */
  const TokenBytes: nat := 32

  /** How long a session lives: 24 hours in nanoseconds. */
  const SessionLifetime: int := 24 * 60 * 60 * 1000 * 1000 * 1000

  /** Token to expiry time. */
  type Sessions = map<string, int>

  /** The stored password configuration. */
  datatype Config = Config(passwordHash: string)

  /** A password is set exactly when the configuration file loads (`loaded`
      is None when reading or decoding it fails) and holds a non-empty hash. */
  predicate HasPassword(loaded: Option<Config>)
  {
    loaded.Some? && loaded.value.passwordHash != ""
  }

  /** A fresh session: the token is the padded URL-safe base64 text of the
      random bytes, recorded with an expiry one lifetime after `now`. */
  datatype Created = Created(token: string, sessions: Sessions)

  function CreateSession(table: Sessions, random: seq<Text.Byte>, now: int): (r: Created)
    requires |random| == TokenBytes
    ensures |r.token| == 44 && r.token[43] == '='
    ensures Base64Url.Decode(r.token) == Some(random)
    ensures r.token in r.sessions && r.sessions[r.token] == now + SessionLifetime
    ensures forall t :: t in table && t != r.token ==> t in r.sessions && r.sessions[t] == table[t]
    ensures r.sessions.Keys == table.Keys + {r.token}
  {
    Base64Url.TokenLength(random);
    Base64Url.DecodeEncode(random);
    var token := Base64Url.Encode(random);
    Created(token, table[token := now + SessionLifetime])
  }

  /** The answer to one session check, with the table it leaves behind. */
  datatype Check = Check(valid: bool, sessions: Sessions)

  /** Check the `session_id` cookie (None when the request has none) at time
      `now`. A token past its expiry is removed from the table. */
  function ValidateSession(table: Sessions, cookie: Option<string>, now: int): (r: Check)
    ensures r.valid <==> cookie.Some? && cookie.value in table && now <= table[cookie.value]
    ensures r.valid ==> r.sessions == table
    ensures cookie.None? || cookie.value !in table ==> r.sessions == table
    ensures cookie.Some? && cookie.value in table && !r.valid ==> r.sessions == table - {cookie.value}
  {
    match cookie
    case None => Check(false, table)
    case Some(token) =>
      if token !in table then Check(false, table)
      else if now > table[token] then Check(false, table - {token})
      else Check(true, table)
  }

  /** A session created at `t` is accepted at every moment up to and including
      `t` plus the lifetime, and leaves the table as it was. */
  lemma ValidUntilExpiry(table: Sessions, random: seq<Text.Byte>, t: int, now: int)
    requires |random| == TokenBytes
    requires now <= t + SessionLifetime
    ensures ValidateSession(CreateSession(table, random, t).sessions, Some(CreateSession(table, random, t).token), now)
            == Check(true, CreateSession(table, random, t).sessions)
  {
  }

  /** Once its lifetime is over, the first check rejects the session and
      removes it, and every later check rejects it again without further
      change. */
  lemma {:induction false} ExpiredStaysRejected(table: Sessions, random: seq<Text.Byte>, t: int, now: int, later: int)
    requires |random| == TokenBytes
    requires now > t + SessionLifetime
    ensures var c := CreateSession(table, random, t);
            var first := ValidateSession(c.sessions, Some(c.token), now);
            !first.valid && c.token !in first.sessions
            && ValidateSession(first.sessions, Some(c.token), later) == Check(false, first.sessions)
  {
    var c := CreateSession(table, random, t);
    var first := ValidateSession(c.sessions, Some(c.token), now);
    assert first.sessions == c.sessions - {c.token};
  }

  /** A check removes at most the presented token, and only an expired one;
      every other session is kept as it was. */
  lemma CheckKeepsOthers(table: Sessions, cookie: Option<string>, now: int, t: string)
    requires t in table && (cookie.None? || t != cookie.value)
    ensures t in ValidateSession(table, cookie, now).sessions
    ensures ValidateSession(table, cookie, now).sessions[t] == table[t]
  {
  }

  /** Checking twice answers the same; the second check changes nothing. */
  lemma {:induction false} CheckIdempotent(table: Sessions, cookie: Option<string>, now: int)
    ensures var first := ValidateSession(table, cookie, now);
            ValidateSession(first.sessions, cookie, now) == Check(first.valid, first.sessions)
  {
    var first := ValidateSession(table, cookie, now);
    if cookie.Some? && cookie.value in table && now > table[cookie.value] {
      assert cookie.value !in first.sessions;
    }
  }
}
