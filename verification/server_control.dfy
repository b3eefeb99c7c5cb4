/** One client's control connection on the server: the messages it sends
    open and close public listeners, map and unmap domains, and ping. The
    model keeps the session's set of listening ports, the global port
    registry and the domain table; whether the operating system lets a port
    be opened is a parameter, and the accept loops and stream piping are
    outside the model. */
module ServerControl {
  import opened Wrappers
  import Protocol
  import Text
  import ServerSessions
  import ServerDomains

  /** Identifies a client session in the global registry. */
  type SessionId = nat

  /** A client session: its identity, the server's control port, and the
      public ports it listens on. */
  datatype ClientSession = ClientSession(id: SessionId, controlPort: int, listeners: set<int>)

  datatype World = World(session: ClientSession, registry: ServerSessions.Registry<SessionId>,
                         domains: ServerDomains.Table)

  const MinPort: int := 1
  const MaxPort: int := 65535

  /** Whether a REQ_BIND for `port` gets as far as opening a listener: a valid
      port number, not the control port, and not already bound here. */
  predicate Bindable(s: ClientSession, port: int)
  {
    MinPort <= port <= MaxPort && port != s.controlPort && port !in s.listeners
  }

  /** REQ_BIND. Any refusal (undecodable payload, bad port, the control port,
      a port already bound, a failed listen) changes nothing. */
  function Bind(w: World, payload: Protocol.Json, canListen: int -> bool): (r: World)
    ensures Protocol.DecodeBind(payload).None? ==> r == w
    ensures Protocol.DecodeBind(payload).Some? ==>
              var p := Protocol.DecodeBind(payload).value.publicPort;
              ((p < MinPort || p > MaxPort || p == w.session.controlPort || p in w.session.listeners
                || !canListen(p)) ==> r == w)
              && (Bindable(w.session, p) && canListen(p) ==>
                    r == w.(session := w.session.(listeners := w.session.listeners + {p}),
                            registry := ServerSessions.Register(w.registry, p, w.session.id)))
  {
    match Protocol.DecodeBind(payload)
    case None => w
    case Some(q) =>
      var p := q.publicPort;
      if p < MinPort || p > MaxPort then w
      else if p == w.session.controlPort then w
      else if p in w.session.listeners then w
      else if !canListen(p) then w
      else w.(session := w.session.(listeners := w.session.listeners + {p}),
              registry := ServerSessions.Register(w.registry, p, w.session.id))
  }

  /** REQ_UNBIND. Unbinding a port this session does not listen on is a no-op;
      otherwise the listener is closed and the port leaves the registry. */
  function Unbind(w: World, payload: Protocol.Json): (r: World)
    ensures r.domains == w.domains && r.session.id == w.session.id
    ensures Protocol.DecodeUnbind(payload).None? ==> r == w
    ensures Protocol.DecodeUnbind(payload).Some? && Protocol.DecodeUnbind(payload).value !in w.session.listeners
            ==> r == w
    ensures Protocol.DecodeUnbind(payload).Some? && Protocol.DecodeUnbind(payload).value in w.session.listeners ==>
              var p := Protocol.DecodeUnbind(payload).value;
              r.session.listeners == w.session.listeners - {p}
              && ServerSessions.Get(r.registry, p).None?
              && forall q :: q != p ==> ServerSessions.Get(r.registry, q) == ServerSessions.Get(w.registry, q)
  {
    match Protocol.DecodeUnbind(payload)
    case None => w
    case Some(p) =>
      if p !in w.session.listeners then w
      else w.(session := w.session.(listeners := w.session.listeners - {p}),
              registry := ServerSessions.Unregister(w.registry, p))
  }

  /** The outcome of one control message: the new state and what is written
      back on the control stream. */
  datatype Step = Step(world: World, reply: Option<Protocol.ControlMessage>)

  /** Dispatch one control message by its type. PING is written back as it
      came; unknown types are ignored. */
  function Handle(w: World, msg: Protocol.ControlMessage, canListen: int -> bool): (r: Step)
    ensures msg.msgType == Protocol.MsgPing ==> r == Step(w, Some(msg))
    ensures msg.msgType != Protocol.MsgPing ==> r.reply.None?
    ensures r.world.session.id == w.session.id && r.world.session.controlPort == w.session.controlPort
    ensures msg.msgType != Protocol.MsgReqDomainMap && msg.msgType != Protocol.MsgReqDomainUnmap
            ==> r.world.domains == w.domains
    ensures msg.msgType != Protocol.MsgReqBind && msg.msgType != Protocol.MsgReqUnbind
            ==> r.world.session == w.session && r.world.registry == w.registry
  {
    if msg.msgType == Protocol.MsgReqBind then Step(Bind(w, msg.payload, canListen), None)
    else if msg.msgType == Protocol.MsgReqUnbind then Step(Unbind(w, msg.payload), None)
    else if msg.msgType == Protocol.MsgPing then Step(w, Some(msg))
    else if msg.msgType == Protocol.MsgReqDomainMap then
      match Protocol.DecodeDomainMap(msg.payload)
      case None => Step(w, None)
      case Some(q) => Step(w.(domains := ServerDomains.Add(w.domains, q.domain, q.publicPort, q.mode)), None)
    else if msg.msgType == Protocol.MsgReqDomainUnmap then
      match Protocol.DecodeDomainUnmap(msg.payload)
      case None => Step(w, None)
      case Some(d) => Step(w.(domains := ServerDomains.Remove(w.domains, d)), None)
    else Step(w, None)
  }

  /** The session owns exactly its listening ports in the registry, and those
      are valid ports other than the control port. */
  predicate Owned(w: World)
  {
    (forall p :: p in w.session.listeners ==>
       MinPort <= p <= MaxPort && p != w.session.controlPort
       && p in w.registry && w.registry[p] == w.session.id)
    && (forall p :: p in w.registry && w.registry[p] == w.session.id ==> p in w.session.listeners)
  }

  lemma HandleKeepsOwned(w: World, msg: Protocol.ControlMessage, canListen: int -> bool)
    requires Owned(w)
    ensures Owned(Handle(w, msg, canListen).world)
  {
  }

  /** Run the messages in order: the final state and the replies written. */
  datatype Run = Run(world: World, replies: seq<Protocol.ControlMessage>)

  function HandleAll(w: World, msgs: seq<Protocol.ControlMessage>, canListen: int -> bool): (r: Run)
    decreases |msgs|
  {
    if |msgs| == 0 then Run(w, [])
    else
      var s := Handle(w, msgs[0], canListen);
      var rest := HandleAll(s.world, msgs[1..], canListen);
      Run(rest.world, (if s.reply.Some? then [s.reply.value] else []) + rest.replies)
  }

  /** Every ping is answered, in order, and nothing else is. */
  lemma {:induction false} RepliesArePings(w: World, msgs: seq<Protocol.ControlMessage>, canListen: int -> bool)
    ensures HandleAll(w, msgs, canListen).replies == Pings(msgs)
    decreases |msgs|
  {
    if |msgs| > 0 {
      RepliesArePings(Handle(w, msgs[0], canListen).world, msgs[1..], canListen);
    }
  }

  /** The ping messages among `msgs`, in order. */
  function Pings(msgs: seq<Protocol.ControlMessage>): (r: seq<Protocol.ControlMessage>)
    ensures |r| <= |msgs|
    ensures forall k :: 0 <= k < |r| ==> r[k].msgType == Protocol.MsgPing
    decreases |msgs|
  {
    if |msgs| == 0 then []
    else (if msgs[0].msgType == Protocol.MsgPing then [msgs[0]] else []) + Pings(msgs[1..])
  }

  lemma {:induction false} HandleAllKeepsOwned(w: World, msgs: seq<Protocol.ControlMessage>, canListen: int -> bool)
    requires Owned(w)
    ensures Owned(HandleAll(w, msgs, canListen).world)
    decreases |msgs|
  {
    if |msgs| > 0 {
      HandleKeepsOwned(w, msgs[0], canListen);
      HandleAllKeepsOwned(Handle(w, msgs[0], canListen).world, msgs[1..], canListen);
    }
  }

  /** Unregister the ports one after another. */
  function UnregisterEach(reg: ServerSessions.Registry<SessionId>, ports: seq<int>): (r: ServerSessions.Registry<SessionId>)
    ensures forall p :: p in r <==> p in reg && p !in ports
    ensures forall p :: p in r ==> r[p] == reg[p]
    decreases |ports|
  {
    if |ports| == 0 then reg else UnregisterEach(ServerSessions.Unregister(reg, ports[0]), ports[1..])
  }

  /** When the control loop ends, every port the session listens on leaves
      the registry; `order` is the order Go's map iteration happens to visit
      them in. The listener set itself is not cleared. */
  function Cleanup(w: World, order: seq<int>): (r: World)
    requires forall p :: p in order <==> p in w.session.listeners
    ensures r.session == w.session && r.domains == w.domains
    ensures forall p :: p in r.registry <==> p in w.registry && p !in w.session.listeners
    ensures forall p :: p in r.registry ==> r.registry[p] == w.registry[p]
  {
    w.(registry := UnregisterEach(w.registry, order))
  }

  /** After a session's messages and its cleanup, no port in the registry
      leads to it any more, whatever it bound and unbound on the way and in
      whatever order the cleanup visits its ports. */
  lemma {:induction false} ServeLeavesNoTrace(w: World, msgs: seq<Protocol.ControlMessage>, canListen: int -> bool,
                                              order: seq<int>)
    requires Owned(w)
    requires forall p :: p in order <==> p in HandleAll(w, msgs, canListen).world.session.listeners
    ensures var end := Cleanup(HandleAll(w, msgs, canListen).world, order);
            forall p :: p in end.registry ==> end.registry[p] != w.session.id
  {
    HandleAllKeepsOwned(w, msgs, canListen);
    SessionIdStays(w, msgs, canListen);
  }

  lemma {:induction false} SessionIdStays(w: World, msgs: seq<Protocol.ControlMessage>, canListen: int -> bool)
    ensures HandleAll(w, msgs, canListen).world.session.id == w.session.id
    decreases |msgs|
  {
    if |msgs| > 0 {
      SessionIdStays(Handle(w, msgs[0], canListen).world, msgs[1..], canListen);
    }
  }

  lemma BoundThenUnbound(w: World, port: int)
    requires Bindable(w.session, port) && port !in w.registry
    ensures var bound := w.(session := w.session.(listeners := w.session.listeners + {port}),
                            registry := ServerSessions.Register(w.registry, port, w.session.id));
            bound.session.listeners - {port} == w.session.listeners
            && ServerSessions.Unregister(bound.registry, port) == w.registry
  {
  }

  /** Binding a port and unbinding it again restores the registry, when the
      port had no owner before; a local port beyond int64 fails the decoding
      and binds nothing. */
  lemma BindThenUnbind(w: World, port: int, localPort: int, canListen: int -> bool)
    requires Bindable(w.session, port) && canListen(port) && port !in w.registry
    ensures var bound := Bind(w, Protocol.JObject([("public_port", Protocol.JInt(port)),
                                                    ("local_port", Protocol.JInt(localPort))]), canListen);
            (Text.MinInt64 <= localPort <= Text.MaxInt64 ==>
               Unbind(bound, Protocol.JObject([("public_port", Protocol.JInt(port))])) == w)
            && (!(Text.MinInt64 <= localPort <= Text.MaxInt64) ==> bound == w)
  {
    var bp := Protocol.JObject([("public_port", Protocol.JInt(port)), ("local_port", Protocol.JInt(localPort))]);
    var up := Protocol.JObject([("public_port", Protocol.JInt(port))]);
    Protocol.BindPayload(port, localPort);
    Protocol.UnbindPayload(port);
    if Text.MinInt64 <= localPort <= Text.MaxInt64 {
      assert Protocol.DecodeBind(bp) == Some(Protocol.BindRequest(port, localPort));
      assert Protocol.DecodeUnbind(up) == Some(port);
      BoundThenUnbound(w, port);
    } else {
      assert Protocol.DecodeBind(bp).None?;
    }
  }
}
