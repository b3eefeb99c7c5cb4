/** The client's tunnel and domain registry: public port ↦ local port, and
    domain ↦ (public port, mode). Every change is announced to the server over
    the control connection first; `linkOk` says whether that write goes
    through. Saving to disk and logging are side effects outside the model. */
module ClientManager {
  import opened Wrappers
  import Text
  import Seqs
  import Protocol

  datatype DomainEntry = DomainEntry(publicPort: int, mode: string)

  datatype Manager = Manager(tunnels: map<int, int>, domains: map<string, DomainEntry>)

  /** What AddTunnel reads besides the registry: the dashboard port, the
      server's control port as ServerPort reads it from the configured address
      (the address never changes, so it is read once here), the local port of
      the control connection when it is a TCP connection, and whether the
      control connection accepts writes. */
  datatype Env = Env(dashboardPort: int, serverPort: Option<int>, linkPort: Option<int>, linkOk: bool)

  datatype Error =
    | DashboardPortConflict(port: int)
    | ServerPortConflict(port: int)
    | LinkPortConflict(port: int)
    | AlreadyActive(port: int)
    | NotActive(port: int)
    | WriteFailed
    | InvalidRangeFormat
    | InvalidRangeOrder
    | NotANumber

  const Empty: Manager := Manager(map[], map[])

  /** Every mapped domain points at an active tunnel. */
  predicate Consistent(m: Manager)
  {
    forall d :: d in m.domains ==> m.domains[d].publicPort in m.tunnels
  }

  // ---------------------------------------------------------------------------
  // Adding tunnels
  // ---------------------------------------------------------------------------

  /** The server's control port as AddTunnel reads it: only when the address
      splits on ':' into exactly two pieces and the second is a number. */
  function ServerPort(serverAddr: string): (r: Option<int>)
    ensures r.Some? ==> Text.CountChar(serverAddr, ':') == 1
    ensures r.Some? ==> Text.MinInt64 <= r.value <= Text.MaxInt64
  {
    var parts := Text.Split(serverAddr, ':');
    if |parts| == 2 && Text.Atoi(parts[1]).ok then Some(Text.Atoi(parts[1]).value) else None
  }

  /** The environment for a client configured with server address `serverAddr`. */
  function EnvFor(dashboardPort: int, serverAddr: string, linkPort: Option<int>, linkOk: bool): Env
  {
    Env(dashboardPort, ServerPort(serverAddr), linkPort, linkOk)
  }

  /** A "host:port" address gives back its port. */
  lemma ServerPortOfAddress(host: string, port: int)
    requires ':' !in host
    requires 0 <= port <= Text.MaxInt64
    ensures ServerPort(host + ":" + Text.IntToString(port)) == Some(port)
  {
    var p := Text.IntToString(port);
    assert ':' !in p by {
      assert Text.AllDigits(p);
    }
    Text.SplitAfterPiece(host, ':', p);
    Text.SplitNoSeparator(p, ':');
    assert host + ":" + p == host + [':'] + p;
    Text.AtoiOfIntToString(port);
  }

  /** A bracketed IPv6 address has more than one ':', so no port is read and
      the server-port guard is skipped. */
  lemma ServerPortNeedsOneColon(serverAddr: string)
    requires Text.CountChar(serverAddr, ':') != 1
    ensures ServerPort(serverAddr) == None
  {
  }

  /** The guards that do not depend on the registry. */
  predicate Admissible(env: Env, publicPort: int, localPort: int)
  {
    && localPort != env.dashboardPort && publicPort != env.dashboardPort
    && (env.serverPort.Some? ==> publicPort != env.serverPort.value && localPort != env.serverPort.value)
    && (env.linkPort.Some? ==> localPort != env.linkPort.value && publicPort != env.linkPort.value)
  }

  /** Open a tunnel. Refused, in this order, when either port is the dashboard
      port, the server's control port or the control connection's own local
      port, when the public port is already in use, and when the REQ_BIND
      message cannot be written. Otherwise exactly the one mapping is added. */
  function AddTunnel(m: Manager, env: Env, publicPort: int, localPort: int): (r: Result<Manager, Error>)
    ensures r.Ok? <==> Admissible(env, publicPort, localPort) && publicPort !in m.tunnels && env.linkOk
    ensures r.Ok? ==> r.value == m.(tunnels := m.tunnels[publicPort := localPort])
    ensures localPort == env.dashboardPort || publicPort == env.dashboardPort
            ==> r == Err(DashboardPortConflict(env.dashboardPort))
    ensures r.Err? && r.error.AlreadyActive? ==> publicPort in m.tunnels
    ensures Admissible(env, publicPort, localPort) && publicPort in m.tunnels ==> r == Err(AlreadyActive(publicPort))
  {
    var serverPort := env.serverPort;
    if localPort == env.dashboardPort || publicPort == env.dashboardPort then
      Err(DashboardPortConflict(env.dashboardPort))
    else if serverPort.Some? && (publicPort == serverPort.value || localPort == serverPort.value) then
      Err(ServerPortConflict(serverPort.value))
    else if env.linkPort.Some? && (localPort == env.linkPort.value || publicPort == env.linkPort.value) then
      Err(LinkPortConflict(env.linkPort.value))
    else if publicPort in m.tunnels then
      Err(AlreadyActive(publicPort))
    else if !env.linkOk then
      Err(WriteFailed)
    else
      Ok(m.(tunnels := m.tunnels[publicPort := localPort]))
  }

  /** The registry after an attempt whose failure is only logged. */
  function Attempt(r: Result<Manager, Error>, m: Manager): Manager
  {
    if r.Ok? then r.value else m
  }

  /** Go's int64 addition, which wraps around. */
  function Wrap64(x: int): (r: int)
    ensures Text.MinInt64 <= r <= Text.MaxInt64
    ensures Text.MinInt64 <= x <= Text.MaxInt64 ==> r == x
  {
    (x - Text.MinInt64) % 0x1_0000_0000_0000_0000 + Text.MinInt64
  }

  /** Pairs start+i ↦ localStart+i for i from `i` to `count`, in order, each
      attempted with AddTunnel and its failure ignored. */
  function Series(m: Manager, env: Env, start: int, localStart: int, i: nat, count: nat): Manager
    decreases count + 1 - i
  {
    if i > count then m
    else Series(Attempt(AddTunnel(m, env, start + i, Wrap64(localStart + i)), m), env, start, localStart, i + 1, count)
  }

  /** `r` is `m` with pairs p ↦ localStart + (p - start), lo <= p <= hi, added:
      old tunnels and all domains are kept, no other tunnel appears, and every
      pair that passes the guards against `m` is there. */
  predicate AddsPairs(m: Manager, env: Env, lo: int, hi: int, start: int, localStart: int, r: Manager)
  {
    && r.domains == m.domains
    && (forall p :: p in m.tunnels ==> p in r.tunnels && r.tunnels[p] == m.tunnels[p])
    && (forall p :: p in r.tunnels && p !in m.tunnels ==>
          lo <= p <= hi && r.tunnels[p] == Wrap64(localStart + (p - start)))
    && (forall p :: (lo <= p <= hi && p !in m.tunnels && env.linkOk
                     && Admissible(env, p, Wrap64(localStart + (p - start)))) ==>
          p in r.tunnels && r.tunnels[p] == Wrap64(localStart + (p - start)))
  }

  /** A series keeps the domains. */
  lemma {:induction false} SeriesKeepsDomains(m: Manager, env: Env, start: int, localStart: int, i: nat, count: nat)
    ensures Series(m, env, start, localStart, i, count).domains == m.domains
    decreases count + 1 - i
  {
    if i <= count {
      SeriesKeepsDomains(Attempt(AddTunnel(m, env, start + i, Wrap64(localStart + i)), m), env, start, localStart, i + 1, count);
    }
  }

  /** A series keeps a tunnel that was already open. */
  lemma {:induction false} SeriesKeeps(m: Manager, env: Env, start: int, localStart: int, i: nat, count: nat, p: int)
    requires p in m.tunnels
    ensures p in Series(m, env, start, localStart, i, count).tunnels
    ensures Series(m, env, start, localStart, i, count).tunnels[p] == m.tunnels[p]
    decreases count + 1 - i
  {
    if i <= count {
      var m1 := Attempt(AddTunnel(m, env, start + i, Wrap64(localStart + i)), m);
      SeriesKeeps(m1, env, start, localStart, i + 1, count, p);
    }
  }

  /** A series opens no tunnel outside its own pairs. */
  lemma {:induction false} SeriesOnlyPairs(m: Manager, env: Env, start: int, localStart: int, i: nat, count: nat, p: int)
    requires p in Series(m, env, start, localStart, i, count).tunnels && p !in m.tunnels
    ensures start + i <= p <= start + count
    ensures Series(m, env, start, localStart, i, count).tunnels[p] == Wrap64(localStart + (p - start))
    decreases count + 1 - i
  {
    if i <= count {
      var p0, l0 := start + i, Wrap64(localStart + i);
      var m1 := Attempt(AddTunnel(m, env, p0, l0), m);
      if p in m1.tunnels {
        assert p == p0 && m1.tunnels[p] == l0;
        SeriesKeeps(m1, env, start, localStart, i + 1, count, p);
      } else {
        SeriesOnlyPairs(m1, env, start, localStart, i + 1, count, p);
      }
    }
  }

  /** A series opens every one of its pairs that passes the guards. Earlier
      pairs never block later ones, their public ports being distinct, so each
      pair is judged against the registry the series started from. */
  lemma {:induction false} SeriesOpens(m: Manager, env: Env, start: int, localStart: int, i: nat, count: nat, p: int)
    requires start + i <= p <= start + count && p !in m.tunnels && env.linkOk
    requires Admissible(env, p, Wrap64(localStart + (p - start)))
    ensures p in Series(m, env, start, localStart, i, count).tunnels
    ensures Series(m, env, start, localStart, i, count).tunnels[p] == Wrap64(localStart + (p - start))
    decreases count + 1 - i
  {
    var p0, l0 := start + i, Wrap64(localStart + i);
    var m1 := Attempt(AddTunnel(m, env, p0, l0), m);
    if p == p0 {
      assert m1.tunnels == m.tunnels[p0 := l0];
      SeriesKeeps(m1, env, start, localStart, i + 1, count, p);
    } else {
      SeriesOpens(m1, env, start, localStart, i + 1, count, p);
    }
  }

  lemma SeriesSpec(m: Manager, env: Env, start: int, localStart: int, count: nat, r: Manager)
    requires r == Series(m, env, start, localStart, 0, count)
    ensures AddsPairs(m, env, start, start + count, start, localStart, r)
  {
    SeriesKeepsDomains(m, env, start, localStart, 0, count);
    SeriesKeepsAll(m, env, start, localStart, count, r);
    SeriesOnlyAll(m, env, start, localStart, count, r);
    SeriesOpensAll(m, env, start, localStart, count, r);
  }

  lemma SeriesKeepsAll(m: Manager, env: Env, start: int, localStart: int, count: nat, r: Manager)
    requires r == Series(m, env, start, localStart, 0, count)
    ensures forall p :: p in m.tunnels ==> p in r.tunnels && r.tunnels[p] == m.tunnels[p]
  {
    forall p | p in m.tunnels
      ensures p in r.tunnels && r.tunnels[p] == m.tunnels[p]
    {
      SeriesKeeps(m, env, start, localStart, 0, count, p);
    }
  }

  lemma SeriesOnlyAll(m: Manager, env: Env, start: int, localStart: int, count: nat, r: Manager)
    requires r == Series(m, env, start, localStart, 0, count)
    ensures forall p :: p in r.tunnels && p !in m.tunnels ==>
              start <= p <= start + count && r.tunnels[p] == Wrap64(localStart + (p - start))
  {
    forall p | p in r.tunnels && p !in m.tunnels
      ensures start <= p <= start + count && r.tunnels[p] == Wrap64(localStart + (p - start))
    {
      SeriesOnlyPairs(m, env, start, localStart, 0, count, p);
    }
  }

  lemma SeriesOpensAll(m: Manager, env: Env, start: int, localStart: int, count: nat, r: Manager)
    requires r == Series(m, env, start, localStart, 0, count)
    ensures forall p :: (start <= p <= start + count && p !in m.tunnels && env.linkOk
                         && Admissible(env, p, Wrap64(localStart + (p - start)))) ==>
              p in r.tunnels && r.tunnels[p] == Wrap64(localStart + (p - start))
  {
    forall p | (start <= p <= start + count && p !in m.tunnels && env.linkOk
                && Admissible(env, p, Wrap64(localStart + (p - start))))
      ensures p in r.tunnels && r.tunnels[p] == Wrap64(localStart + (p - start))
    {
      SeriesOpens(m, env, start, localStart, 0, count, p);
    }
  }

  /** The numbers a range request carries: public start and end, local start. */
  datatype Bounds = Bounds(start: int, end: int, localStart: int)

  /** Read "a-b" and "c-…": exactly one '-' in each string, and b >= a. The
      numbers are read after trimming spaces; one that does not parse counts
      as 0 (or as the 64-bit bound it overflows), and the text after the local
      '-' is not read at all. No bound can be negative, as a sign would be a
      second '-', so the port count end - start never overflows. */
  function RangeBounds(publicStr: string, localStr: string): (r: Result<Bounds, Error>)
    ensures Text.CountChar(publicStr, '-') != 1 || Text.CountChar(localStr, '-') != 1 ==> r == Err(InvalidRangeFormat)
    ensures r.Err? ==> r.error.InvalidRangeFormat? || r.error.InvalidRangeOrder?
    ensures r.Ok? ==> 0 <= r.value.start <= r.value.end <= Text.MaxInt64
  {
    var pParts := Text.Split(publicStr, '-');
    var lParts := Text.Split(localStr, '-');
    if |pParts| != 2 || |lParts| != 2 then Err(InvalidRangeFormat)
    else
      var a, b, c := Text.TrimSpace(pParts[0]), Text.TrimSpace(pParts[1]), Text.TrimSpace(lParts[0]);
      Text.TrimSpaceKeepsOut(pParts[0], '-');
      var bounds := Bounds(Text.Atoi(a).value, Text.Atoi(b).value, Text.Atoi(c).value);
      if bounds.end < bounds.start then Err(InvalidRangeOrder) else Ok(bounds)
  }

  /** What an add request asks for once its strings are read. */
  datatype AddRequest = RangeRequest(bounds: Bounds) | PairRequest(publicPort: int, localPort: int)

  /** Read AddRange's strings: a range when the public string has a '-',
      otherwise a single pair of numbers, each read by Atoi without trimming. */
  function ParseAdd(publicStr: string, localStr: string): (r: Result<AddRequest, Error>)
    ensures '-' in publicStr ==> (r.Ok? ==> r.value.RangeRequest?) && (r.Err? ==> RangeBounds(publicStr, localStr) == Err(r.error))
    ensures '-' in publicStr && r.Ok? ==> RangeBounds(publicStr, localStr) == Ok(r.value.bounds)
    ensures '-' !in publicStr ==> (r.Ok? <==> Text.Atoi(publicStr).ok && Text.Atoi(localStr).ok)
    ensures '-' !in publicStr && r.Err? ==> r.error == NotANumber
    ensures '-' !in publicStr && r.Ok? ==>
              r.value == PairRequest(Text.Atoi(publicStr).value, Text.Atoi(localStr).value)
  {
    if '-' in publicStr then
      match RangeBounds(publicStr, localStr)
      case Err(e) => Err(e)
      case Ok(b) => Ok(RangeRequest(b))
    else
      var p := Text.Atoi(publicStr);
      var l := Text.Atoi(localStr);
      if !p.ok then Err(NotANumber)
      else if !l.ok then Err(NotANumber)
      else Ok(PairRequest(p.value, l.value))
  }

  /** Carry out a read request. The pairs of a range are attempted one by one
      with the public and local port advancing together, each failure only
      logged, and the range as a whole succeeds; a single pair is AddTunnel. */
  function Apply(m: Manager, env: Env, q: AddRequest): (r: Result<Manager, Error>)
    requires q.RangeRequest? ==> 0 <= q.bounds.start <= q.bounds.end <= Text.MaxInt64
    ensures q.RangeRequest? ==> r.Ok?
    ensures q.PairRequest? ==> r == AddTunnel(m, env, q.publicPort, q.localPort)
    ensures r.Ok? ==> r.value.domains == m.domains
    ensures r.Ok? ==> forall p :: p in m.tunnels ==> p in r.value.tunnels && r.value.tunnels[p] == m.tunnels[p]
  {
    match q
    case RangeRequest(b) =>
      var r := Series(m, env, b.start, b.localStart, 0, b.end - b.start);
      SeriesSpec(m, env, b.start, b.localStart, b.end - b.start, r);
      Ok(r)
    case PairRequest(p, l) => AddTunnel(m, env, p, l)
  }

  /** Go's AddRange: read the strings, then carry out what they ask for. */
  function AddRange(m: Manager, env: Env, publicStr: string, localStr: string): Result<Manager, Error>
  {
    match ParseAdd(publicStr, localStr)
    case Err(e) => Err(e)
    case Ok(q) => Apply(m, env, q)
  }

  /** A range never rejects once its bounds read well: every pair
      start+i ↦ localStart+i that passes the guards against the registry is
      added, and nothing else is. */
  lemma RangeAddsAdmissiblePairs(m: Manager, env: Env, bounds: Bounds)
    requires 0 <= bounds.start <= bounds.end <= Text.MaxInt64
    ensures Apply(m, env, RangeRequest(bounds)).Ok?
    ensures AddsPairs(m, env, bounds.start, bounds.end, bounds.start, bounds.localStart,
                      Apply(m, env, RangeRequest(bounds)).value)
  {
    var r := Series(m, env, bounds.start, bounds.localStart, 0, bounds.end - bounds.start);
    SeriesSpec(m, env, bounds.start, bounds.localStart, bounds.end - bounds.start, r);
  }

  /** Go's range loop as written: `for i := 0; i <= count; i++` over int64,
      so the counter and both ports wrap around. None when `fuel` iterations
      have not brought the loop to its exit. */
  function RangeLoop(m: Manager, env: Env, start: int, localStart: int, i: int, count: int, fuel: nat): Option<Manager>
    decreases fuel
  {
    if fuel == 0 then None
    else if !(i <= count) then Some(m)
    else RangeLoop(Attempt(AddTunnel(m, env, Wrap64(start + i), Wrap64(localStart + i)), m),
                   env, start, localStart, Wrap64(i + 1), count, fuel - 1)
  }

  /** Below the top of the int64 range the loop exits after count + 1 - i
      steps with the series of pairs. */
  lemma {:induction false} RangeLoopIsSeries(m: Manager, env: Env, start: int, localStart: int, i: nat, count: nat, fuel: nat)
    requires 0 <= start && start + count <= Text.MaxInt64 && count < Text.MaxInt64
    requires i <= count + 1 && fuel > count + 1 - i
    ensures RangeLoop(m, env, start, localStart, i, count, fuel) == Some(Series(m, env, start, localStart, i, count))
    decreases count + 1 - i
  {
    if i <= count {
      var m1 := Attempt(AddTunnel(m, env, start + i, Wrap64(localStart + i)), m);
      assert Wrap64(start + i) == start + i && Wrap64(i + 1) == i + 1;
      RangeLoopIsSeries(m1, env, start, localStart, i + 1, count, fuel - 1);
    }
  }

  /** With count = MaxInt64 the guard i <= count holds for every int64 i, so
      no amount of fuel reaches the exit. */
  lemma {:induction false} TopCountLoops(m: Manager, env: Env, start: int, localStart: int, i: int, fuel: nat)
    requires Text.MinInt64 <= i <= Text.MaxInt64
    ensures RangeLoop(m, env, start, localStart, i, Text.MaxInt64, fuel).None?
    decreases fuel
  {
    if fuel > 0 {
      var m1 := Attempt(AddTunnel(m, env, Wrap64(start + i), Wrap64(localStart + i)), m);
      TopCountLoops(m1, env, start, localStart, Wrap64(i + 1), fuel - 1);
    }
  }

  /** The public range "0-9223372036854775807" reads well, so AddRange enters
      the loop with count = MaxInt64 and never returns, while the model's
      Apply adds the series of pairs. */
  lemma FullRangeNeverExits(m: Manager, env: Env, fuel: nat)
    ensures RangeBounds("0" + "-" + Text.IntToString(Text.MaxInt64), "0" + "-" + "0") == Ok(Bounds(0, Text.MaxInt64, 0))
    ensures RangeLoop(m, env, 0, 0, 0, Text.MaxInt64, fuel).None?
    ensures Apply(m, env, RangeRequest(Bounds(0, Text.MaxInt64, 0)))
            == Ok(Series(m, env, 0, 0, 0, Text.MaxInt64))
  {
    ZeroToReads(Text.MaxInt64);
    TopCountLoops(m, env, 0, 0, 0, fuel);
    FullRangeApplies(m, env);
  }

  /** "0-n" with local "0-0" reads as the range 0..n starting at local 0. */
  lemma ZeroToReads(n: nat)
    requires n <= Text.MaxInt64
    ensures RangeBounds("0" + "-" + Text.IntToString(n), "0" + "-" + "0") == Ok(Bounds(0, n, 0))
  {
    ZeroNumeral();
    NumeralOf(n);
    RangeBoundsOf("0", Text.IntToString(n), "0", 0, n, 0, "0");
  }

  lemma ZeroNumeral()
    ensures Numeral("0", 0)
  {
    NumeralOf(0);
    assert Text.IntToString(0) == "0";
  }

  lemma FullRangeApplies(m: Manager, env: Env)
    ensures Apply(m, env, RangeRequest(Bounds(0, Text.MaxInt64, 0))) == Ok(Series(m, env, 0, 0, 0, Text.MaxInt64))
  {
  }

  /** A decimal numeral: non-empty, digits only, and read by Atoi as `x`. */
  predicate Numeral(s: string, x: int)
  {
    1 <= |s| && Text.AllDigits(s) && Text.Atoi(s) == Text.Parsed(x, true)
  }

  lemma NumeralOf(x: nat)
    requires x <= Text.MaxInt64
    ensures Numeral(Text.IntToString(x), x)
  {
    Text.AtoiOfIntToString(x);
  }

  /** A numeral reads back as itself after trimming, and has no '-'. */
  lemma BoundParses(s: string, x: int)
    requires Numeral(s, x)
    ensures '-' !in s
    ensures Text.Atoi(Text.TrimSpace(s)).value == x
  {
    DigitsTrimmed(s);
  }

  /** Numeral bounds read back as themselves, whatever follows the local '-'. */
  lemma RangeBoundsOf(sa: string, sb: string, sc: string, a: int, b: int, c: int, localEnd: string)
    requires Numeral(sa, a) && Numeral(sb, b) && Numeral(sc, c) && a <= b
    requires '-' !in localEnd
    ensures RangeBounds(sa + "-" + sb, sc + "-" + localEnd) == Ok(Bounds(a, b, c))
  {
    BoundParses(sa, a);
    BoundParses(sb, b);
    BoundParses(sc, c);
    RangeParts(sa, sb);
    RangeParts(sc, localEnd);
  }

  /** Splitting "x-y" on '-' when neither side has a '-'. */
  lemma RangeParts(x: string, y: string)
    requires '-' !in x && '-' !in y
    ensures Text.Split(x + "-" + y, '-') == [x, y]
  {
    Text.SplitAfterPiece(x, '-', y);
    Text.SplitNoSeparator(y, '-');
    assert x + "-" + y == x + ['-'] + y;
  }

  lemma DigitsTrimmed(s: string)
    requires 1 <= |s| && Text.AllDigits(s)
    ensures Text.TrimSpace(s) == s
  {
    Text.DigitEdgesNotSpace(s);
  }

  /** A bound may start with a no-break space (U+00A0, bytes C2 A0): TrimSpace
      drops it like an ASCII space. */
  lemma NoBreakSpaceTrimmed(sa: string, sb: string, sc: string, a: int, b: int, c: int, localEnd: string)
    requires Numeral(sa, a) && Numeral(sb, b) && Numeral(sc, c) && a <= b
    requires '-' !in localEnd
    ensures RangeBounds("\U{00C2}\U{00A0}" + sa + "-" + sb, sc + "-" + localEnd) == Ok(Bounds(a, b, c))
  {
    var nbsp := "\U{00C2}\U{00A0}";
    assert Text.IsSpaceEncoding(nbsp) && '-' !in nbsp;
    SpaceBeforeBound(nbsp, sa, sb, sc, a, b, c, localEnd);
  }

  /** White space in front of a range's start does not change its bounds. */
  lemma SpaceBeforeBound(e: string, sa: string, sb: string, sc: string, a: int, b: int, c: int, localEnd: string)
    requires Text.IsSpaceEncoding(e) && '-' !in e
    requires Numeral(sa, a) && Numeral(sb, b) && Numeral(sc, c) && a <= b
    requires '-' !in localEnd
    ensures RangeBounds(e + sa + "-" + sb, sc + "-" + localEnd) == Ok(Bounds(a, b, c))
  {
    SpacedBoundParses(e, sa, a);
    BoundParses(sb, b);
    BoundParses(sc, c);
    RangeBoundsOfParts(e + sa, sb, sc, localEnd);
    assert e + sa + "-" + sb == (e + sa) + "-" + sb;
  }

  lemma SpacedBoundParses(e: string, s: string, x: int)
    requires Text.IsSpaceEncoding(e) && '-' !in e && Numeral(s, x)
    ensures '-' !in e + s
    ensures Text.Atoi(Text.TrimSpace(e + s)).value == x
  {
    BoundParses(s, x);
    Text.SpaceInFrontTrimSpace(e, s);
  }

  /** With no other '-', the bounds are the trimmed pieces read by Atoi. */
  lemma RangeBoundsOfParts(x: string, y: string, z: string, localEnd: string)
    requires '-' !in x && '-' !in y && '-' !in z && '-' !in localEnd
    ensures var bounds := Bounds(Text.Atoi(Text.TrimSpace(x)).value, Text.Atoi(Text.TrimSpace(y)).value,
                                 Text.Atoi(Text.TrimSpace(z)).value);
            RangeBounds(x + "-" + y, z + "-" + localEnd)
            == if bounds.end < bounds.start then Err(InvalidRangeOrder) else Ok(bounds)
  {
    RangeParts(x, y);
    RangeParts(z, localEnd);
  }

  /** The text after the '-' of the local string plays no part. */
  lemma {:induction false} RangeIgnoresLocalEnd(publicStr: string, localStart: string, end1: string, end2: string)
    requires '-' !in localStart && '-' !in end1 && '-' !in end2
    ensures RangeBounds(publicStr, localStart + "-" + end1) == RangeBounds(publicStr, localStart + "-" + end2)
  {
    RangeParts(localStart, end1);
    RangeParts(localStart, end2);
  }

  // ---------------------------------------------------------------------------
  // Domains
  // ---------------------------------------------------------------------------

  /** Map a domain onto an active tunnel, replacing any earlier mapping of it.
      Refused when the port has no tunnel or the REQ_DOMAIN_MAP message cannot
      be written. */
  function AddDomain(m: Manager, domain: string, publicPort: int, mode: string, linkOk: bool): (r: Result<Manager, Error>)
    ensures publicPort !in m.tunnels ==> r == Err(NotActive(publicPort))
    ensures r.Ok? <==> publicPort in m.tunnels && linkOk
    ensures r.Ok? ==> r.value.tunnels == m.tunnels
                      && domain in r.value.domains && r.value.domains[domain] == DomainEntry(publicPort, mode)
                      && forall d :: d != domain ==>
                           (d in r.value.domains <==> d in m.domains)
                           && (d in m.domains ==> r.value.domains[d] == m.domains[d])
  {
    if publicPort !in m.tunnels then Err(NotActive(publicPort))
    else if !linkOk then Err(WriteFailed)
    else Ok(m.(domains := m.domains[domain := DomainEntry(publicPort, mode)]))
  }

  /** Unmap a domain, whether or not it is mapped. Refused only when the
      REQ_DOMAIN_UNMAP message cannot be written. */
  function RemoveDomain(m: Manager, domain: string, linkOk: bool): (r: Result<Manager, Error>)
    ensures r.Ok? <==> linkOk
    ensures r.Ok? ==> r.value.tunnels == m.tunnels && domain !in r.value.domains
                      && forall d :: d != domain ==>
                           (d in r.value.domains <==> d in m.domains)
                           && (d in m.domains ==> r.value.domains[d] == m.domains[d])
  {
    if !linkOk then Err(WriteFailed) else Ok(m.(domains := m.domains - {domain}))
  }

  /** A domain as saved on disk. */
  datatype SavedDomain = SavedDomain(domain: string, port: int, mode: string)

  /** A saved mode that is empty is restored as "auto". */
  function RestoredMode(mode: string): (r: string)
    ensures r != ""
    ensures mode != "" ==> r == mode
  {
    if mode == "" then "auto" else mode
  }

  /** Re-map saved domains in file order, each failure only logged. */
  function RestoreDomains(m: Manager, saved: seq<SavedDomain>, linkOk: bool): (r: Manager)
    ensures r.tunnels == m.tunnels
    ensures (forall d :: d in m.domains ==> m.domains[d].mode != "") ==>
              forall d :: d in r.domains ==> r.domains[d].mode != ""
    ensures forall d :: d in m.domains ==> d in r.domains
    ensures Consistent(m) ==> Consistent(r)
    ensures !linkOk ==> r == m
    decreases |saved|
  {
    if |saved| == 0 then m
    else
      var e := saved[0];
      RestoreDomains(Attempt(AddDomain(m, e.domain, e.port, RestoredMode(e.mode), linkOk), m), saved[1..], linkOk)
  }

  /** A tunnel as saved on disk. */
  datatype SavedTunnel = SavedTunnel(publicPort: int, localPort: int)

  /** Re-open saved tunnels in file order, each failure only logged, then
      restore the saved domains. A file that is missing or does not decode is
      None: a tunnel file like that ends the restore before the domains are
      read, and a domain file like that restores no domain. */
  function RestoreTunnels(m: Manager, env: Env, tunnels: Option<seq<SavedTunnel>>, domains: Option<seq<SavedDomain>>): (r: Manager)
    ensures tunnels.None? ==> r == m
    ensures tunnels.Some? && domains.None? ==> r.domains == m.domains
    ensures forall p :: p in m.tunnels ==> p in r.tunnels && r.tunnels[p] == m.tunnels[p]
    ensures forall p :: p in r.tunnels && p !in m.tunnels ==>
              tunnels.Some? && exists k :: 0 <= k < |tunnels.value| && tunnels.value[k].publicPort == p
    ensures (forall d :: d in m.domains ==> m.domains[d].mode != "") ==>
              forall d :: d in r.domains ==> r.domains[d].mode != ""
    ensures Consistent(m) ==> Consistent(r)
    decreases if tunnels.Some? then |tunnels.value| else 0
  {
    match tunnels
    case None => m
    case Some(ts) =>
      if |ts| == 0 then (if domains.Some? then RestoreDomains(m, domains.value, env.linkOk) else m)
      else
        var t := ts[0];
        var m1 := Attempt(AddTunnel(m, env, t.publicPort, t.localPort), m);
        var r := RestoreTunnels(m1, env, Some(ts[1..]), domains);
        assert forall p :: p in r.tunnels && p !in m1.tunnels ==>
                 exists k :: 0 <= k < |ts| - 1 && ts[1..][k].publicPort == p;
        assert forall p :: p in m1.tunnels && p !in m.tunnels ==> p == ts[0].publicPort;
        r
  }

  /** Restoring a domain with an empty saved mode onto an active tunnel maps it
      with mode "auto". */
  lemma RestoreDefaultsMode(m: Manager, domain: string, port: int)
    requires port in m.tunnels
    ensures domain in RestoreDomains(m, [SavedDomain(domain, port, "")], true).domains
    ensures RestoreDomains(m, [SavedDomain(domain, port, "")], true).domains[domain] == DomainEntry(port, "auto")
  {
    var m1 := AddDomain(m, domain, port, "auto", true).value;
    assert RestoreDomains(m, [SavedDomain(domain, port, "")], true) == RestoreDomains(m1, [], true);
  }

  // ---------------------------------------------------------------------------
  // Removing tunnels
  // ---------------------------------------------------------------------------

  /** The domains mapped onto `publicPort`. */
  function Orphans(m: Manager, publicPort: int): (r: set<string>)
    ensures forall d :: d in r <==> d in m.domains && m.domains[d].publicPort == publicPort
  {
    set d | d in m.domains && m.domains[d].publicPort == publicPort
  }

  /** Close a tunnel: REQ_UNBIND is sent (a failed write is only logged), every
      domain on the port is unmapped with REQ_DOMAIN_UNMAP (each unmap that
      cannot be written leaves its domain in place) and the tunnel goes. */
  function RemoveTunnel(m: Manager, publicPort: int, linkOk: bool): (r: Manager)
    ensures publicPort !in r.tunnels
    ensures forall p :: p != publicPort ==> (p in r.tunnels <==> p in m.tunnels)
    ensures forall p :: p in r.tunnels ==> r.tunnels[p] == m.tunnels[p]
    ensures linkOk ==> forall d :: d in r.domains ==> r.domains[d].publicPort != publicPort
    ensures forall d :: d in m.domains && m.domains[d].publicPort != publicPort
                        ==> d in r.domains && r.domains[d] == m.domains[d]
    ensures forall d :: d in r.domains ==> d in m.domains
    ensures !linkOk ==> r.domains == m.domains
  {
    var orphans := Orphans(m, publicPort);
    var domains := if linkOk then map d | d in m.domains && d !in orphans :: m.domains[d] else m.domains;
    Manager(m.tunnels - {publicPort}, domains)
  }

  /** The cascade through RemoveDomain, one orphan at a time in any order,
      ends where RemoveTunnel does. */
  function RemoveEach(m: Manager, domains: seq<string>, linkOk: bool): (r: Manager)
    ensures r.tunnels == m.tunnels
    ensures linkOk ==> forall d :: d in r.domains <==> d in m.domains && d !in domains
    ensures forall d :: d in r.domains ==> d in m.domains && r.domains[d] == m.domains[d]
    ensures !linkOk ==> r == m
    decreases |domains|
  {
    if |domains| == 0 then m
    else RemoveEach(Attempt(RemoveDomain(m, domains[0], linkOk), m), domains[1..], linkOk)
  }

  lemma {:induction false} RemoveTunnelIsCascade(m: Manager, publicPort: int, order: seq<string>, linkOk: bool)
    requires forall d :: d in order <==> d in Orphans(m, publicPort)
    ensures RemoveTunnel(m, publicPort, linkOk)
            == RemoveEach(m, order, linkOk).(tunnels := m.tunnels - {publicPort})
  {
    var r := RemoveTunnel(m, publicPort, linkOk);
    var c := RemoveEach(m, order, linkOk);
    assert r.domains.Keys == c.domains.Keys;
  }

  /** A tunnel removed with the link up leaves a consistent registry
      consistent; with the link down its domains are left dangling. */
  lemma RemoveKeepsConsistent(m: Manager, publicPort: int)
    requires Consistent(m)
    ensures Consistent(RemoveTunnel(m, publicPort, true))
  {
  }

  lemma LinkDownLeavesDangling()
    ensures var m := Manager(map[80 := 8080], map["a.example" := DomainEntry(80, "auto")]);
            Consistent(m) && !Consistent(RemoveTunnel(m, 80, false))
  {
    var m := Manager(map[80 := 8080], map["a.example" := DomainEntry(80, "auto")]);
    assert "a.example" in RemoveTunnel(m, 80, false).domains;
  }

  /** Opening a tunnel on a consistent registry and closing it again gives
      back the registry it started from. */
  lemma {:induction false} AddThenRemove(m: Manager, env: Env, publicPort: int, localPort: int, linkOk: bool)
    requires Consistent(m)
    requires AddTunnel(m, env, publicPort, localPort).Ok?
    ensures RemoveTunnel(AddTunnel(m, env, publicPort, localPort).value, publicPort, linkOk) == m
  {
    var m1 := AddTunnel(m, env, publicPort, localPort).value;
    var r := RemoveTunnel(m1, publicPort, linkOk);
    assert r.tunnels == m.tunnels;
    assert r.domains == m.domains;
  }

  lemma AddTunnelKeepsConsistent(m: Manager, env: Env, publicPort: int, localPort: int)
    requires Consistent(m) && AddTunnel(m, env, publicPort, localPort).Ok?
    ensures Consistent(AddTunnel(m, env, publicPort, localPort).value)
  {
  }

  lemma AddDomainKeepsConsistent(m: Manager, domain: string, publicPort: int, mode: string, linkOk: bool)
    requires Consistent(m) && AddDomain(m, domain, publicPort, mode, linkOk).Ok?
    ensures Consistent(AddDomain(m, domain, publicPort, mode, linkOk).value)
  {
  }

  // ---------------------------------------------------------------------------
  // The inspect log
  // ---------------------------------------------------------------------------

  /** Exchanges kept for the dashboard's inspector. */
  const InspectLimit: nat := 100

  /** One INSPECT_DATA message: a payload that decodes is appended and the log
      cut to its newest InspectLimit entries; one that does not is dropped. */
  function OnInspectData(logs: seq<Protocol.InspectPayload>, data: Option<Protocol.InspectPayload>): (r: seq<Protocol.InspectPayload>)
    ensures data.None? ==> r == logs
    ensures data.Some? ==> |r| > 0 && r[|r| - 1] == data.value
                           && r[..|r| - 1] == Seqs.KeepLast(logs, InspectLimit - 1)
    ensures |logs| <= InspectLimit ==> |r| <= InspectLimit
  {
    if data.None? then logs
    else
      var r := Seqs.KeepLast(logs + [data.value], InspectLimit);
      assert r[..|r| - 1] == Seqs.KeepLast(logs, InspectLimit - 1);
      r
  }

  /** The payloads of the messages that decoded, in arrival order. */
  function Decoded(msgs: seq<Option<Protocol.InspectPayload>>): seq<Protocol.InspectPayload>
  {
    if |msgs| == 0 then []
    else Decoded(msgs[..|msgs| - 1]) + (if msgs[|msgs| - 1].Some? then [msgs[|msgs| - 1].value] else [])
  }

  function ReceiveAll(logs: seq<Protocol.InspectPayload>, msgs: seq<Option<Protocol.InspectPayload>>): seq<Protocol.InspectPayload>
  {
    if |msgs| == 0 then logs else OnInspectData(ReceiveAll(logs, msgs[..|msgs| - 1]), msgs[|msgs| - 1])
  }

  /** From an empty log, the log always holds the newest InspectLimit decoded
      payloads in arrival order. */
  lemma {:induction false} InspectLogKeepsNewest(msgs: seq<Option<Protocol.InspectPayload>>)
    ensures ReceiveAll([], msgs) == Seqs.KeepLast(Decoded(msgs), InspectLimit)
  {
    if |msgs| > 0 {
      var init := msgs[..|msgs| - 1];
      InspectLogKeepsNewest(init);
      var last := msgs[|msgs| - 1];
      if last.Some? {
        Seqs.KeepLastAppend(Decoded(init), last.value, InspectLimit);
      } else {
        assert Decoded(msgs) == Decoded(init) + [];
        assert Decoded(init) + [] == Decoded(init);
      }
    }
  }
}
