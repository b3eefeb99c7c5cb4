/** The server's registry from public port to the client session that owns
    it. Sessions are values of any type `S`; the model keeps only the map. */
module ServerSessions {
  import opened Wrappers

  type Registry<S> = map<int, S>

  /** The session owning `publicPort`, if any. */
  function Get<S>(reg: Registry<S>, publicPort: int): (r: Option<S>)
    ensures r.Some? <==> publicPort in reg
    ensures r.Some? ==> r.value == reg[publicPort]
  {
    if publicPort in reg then Some(reg[publicPort]) else None
  }

  /** Record `session` as the owner of `publicPort`, replacing any earlier owner. */
  function Register<S>(reg: Registry<S>, publicPort: int, session: S): (r: Registry<S>)
    ensures Get(r, publicPort) == Some(session)
    ensures forall p :: p != publicPort ==> Get(r, p) == Get(reg, p)
  {
    reg[publicPort := session]
  }

  /** Forget the owner of `publicPort`; nothing happens when there is none. */
  function Unregister<S>(reg: Registry<S>, publicPort: int): (r: Registry<S>)
    ensures Get(r, publicPort).None?
    ensures forall p :: p != publicPort ==> Get(r, p) == Get(reg, p)
    ensures publicPort !in reg ==> r == reg
  {
    reg - {publicPort}
  }

  /** A second registration of a port replaces the first. */
  lemma RegisterOverwrites<S>(reg: Registry<S>, publicPort: int, a: S, b: S)
    ensures Register(Register(reg, publicPort, a), publicPort, b) == Register(reg, publicPort, b)
  {
  }

  /** Registering and then unregistering a port that had no owner leaves the
      registry as it was. */
  lemma UnregisterUndoesRegister<S>(reg: Registry<S>, publicPort: int, session: S)
    requires publicPort !in reg
    ensures Unregister(Register(reg, publicPort, session), publicPort) == reg
  {
  }
}
