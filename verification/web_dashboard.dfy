/** The dashboard page as a state machine. Each user action and each settled
    network call is one transition of an immutable State; the HTTP requests the
    page issues are appended to `requests`, and what the network answered is a
    parameter of the transition that reacts to it. Times are milliseconds. */
module Dashboard {
  import opened Wrappers
  import Text
  import Seqs
  import Protocol
  import RateSampler
  import Toasts
  import Selection
  import BulkDelete
  import Inspector

  // ---------------------------------------------------------------------------
  // State
  // ---------------------------------------------------------------------------

  /** A domain row of the status answer. */
  datatype DomainInfo = DomainInfo(publicPort: int, mode: string)

  /** The status object the page renders. Object entries keep their key order. */
  datatype Status = Status(
    connected: bool,
    tunnels: seq<(string, int)>,
    domains: seq<(string, DomainInfo)>,
    uptime: Option<real>,
    serverAddr: Option<string>,
    latency: Option<int>)

  /** Traffic counters of a status answer. */
  datatype StatsPayload = StatsPayload(bytesUp: int, bytesDown: int, latencyMs: int)

  /** A decoded status answer. `domains` is None when the answer has none. */
  datatype StatusPayload = StatusPayload(
    connected: bool,
    tunnels: seq<(string, int)>,
    domains: Option<seq<(string, DomainInfo)>>,
    uptime: Option<real>,
    serverAddr: Option<string>,
    stats: Option<StatsPayload>)

  /** An HTTP request the page sends to its API. */
  datatype Request =
    | GetStatus
    | GetInspect
    | PostLogin(password: string)
    | GetLogout
    | PostTunnel(publicPort: string, localPort: string, protocol: string)
    | DeleteTunnel(port: Text.JsNumber)
    | DeleteTunnels(ports: seq<Text.JsNumber>)
    | PostDomain(domain: string, targetPort: Text.JsNumber, mode: string)
    | DeleteDomain(domain: string)

  /** A confirmed action, with what it captured when it was requested. */
  datatype Action =
    | StopTunnel(publicPort: string, selectionThen: seq<string>)
    | StopSelected(total: nat, selectionThen: seq<string>)
    | UnmapDomain(domain: string)

  /** The single confirmation dialog. */
  datatype ConfirmSlot = ConfirmSlot(isOpen: bool, title: string, message: string, onConfirm: Option<Action>)

  datatype TunnelForm = TunnelForm(publicPort: string, localPort: string, protocol: string)
  datatype DomainForm = DomainForm(domain: string, targetPort: string, mode: string)
  datatype Progress = Progress(current: int, total: int)
  datatype Tab = TunnelsTab | DomainsTab | InspectorTab

  /** `pollTab` is the tab the polling closure saw: the page re-creates its
      one-second interval each time the sign-in flag changes value, and that
      closure keeps the tab that was active at that moment. */
  datatype State = State(
    authenticated: bool,
    password: string,
    status: Status,
    activeTab: Tab,
    pollTab: Tab,
    tunnelForm: TunnelForm,
    domainForm: DomainForm,
    sampler: RateSampler.Sampler,
    toasts: seq<Toasts.Toast>,
    bulkDeleting: bool,
    progress: Progress,
    inspectorLogs: seq<Protocol.InspectPayload>,
    selectedLogId: Option<string>,
    confirm: ConfirmSlot,
    selection: seq<string>,
    requests: seq<Request>,
    bulkTimers: seq<int>)

  const EmptyStatus: Status := Status(false, [], [], None, None, None)

  /** Delay between the end of a bulk stop and the hiding of its progress dialog. */
  const BulkHideDelayMs: int := 500
  const PortMin: int := 1
  const PortMax: int := 65535

  /** The page as it is first rendered at time `now`. */
  function Init(now: int): (s: State)
    ensures !s.authenticated && s.status == EmptyStatus && s.selection == [] && s.requests == []
    ensures !s.confirm.isOpen && s.confirm.onConfirm.None?
    ensures s.activeTab == TunnelsTab && s.pollTab == TunnelsTab
  {
    State(false, "", EmptyStatus, TunnelsTab, TunnelsTab, TunnelForm("", "", "TCP"), DomainForm("", "", "auto"),
          RateSampler.Initial(now), [], false, Progress(0, 0), [], None,
          ConfirmSlot(false, "", "", None), [], [], [])
  }

  function Keys(entries: seq<(string, int)>): (r: seq<string>)
    ensures |r| == |entries|
    ensures forall i :: 0 <= i < |r| ==> r[i] == entries[i].0
  {
    if |entries| == 0 then [] else [entries[0].0] + Keys(entries[1..])
  }

  function Toast(s: State, now: int, message: string, kind: Toasts.Kind): State
  {
    s.(toasts := Toasts.Add(s.toasts, now, message, Some(kind)))
  }

  /** Set the sign-in flag. A change of value re-creates the polling
      interval, whose closure sees the tab active now. */
  function SignIn(s: State, b: bool): (r: State)
    ensures r.authenticated == b && PollTabFollows(s, r)
    ensures r.(authenticated := s.authenticated, pollTab := s.pollTab) == s
  {
    if s.authenticated == b then s else s.(authenticated := b, pollTab := s.activeTab)
  }

  /** The polling closure is re-created exactly when the sign-in flag changes. */
  predicate PollTabFollows(s: State, r: State)
  {
    && (r.authenticated == s.authenticated ==> r.pollTab == s.pollTab)
    && (r.authenticated != s.authenticated ==> r.pollTab == s.activeTab)
  }

  /** The tab a status request's closure saw: the polling closure's for the
      interval and the effect, the current render's for the refresh after a
      form or dialog action. */
  function ClosureTab(s: State, polled: bool): Tab
  {
    if polled then s.pollTab else s.activeTab
  }

  /** `r` has the dialog, the selection and the chart of `s`. */
  predicate Untouched(s: State, r: State)
  {
    r.confirm == s.confirm && r.selection == s.selection && r.sampler == s.sampler
  }

  // ---------------------------------------------------------------------------
  // Status polling, login and logout
  // ---------------------------------------------------------------------------

  /** The one-second interval (and the mount effect) asks for the status,
      whether or not the page believes it is signed in. */
  function Tick(s: State): (r: State)
    ensures r.requests == s.requests + [GetStatus]
    ensures r.(requests := s.requests) == s
    ensures Untouched(s, r)
  {
    s.(requests := s.requests + [GetStatus])
  }

  /** How a status request ended. */
  datatype StatusOutcome =
    | StatusRejected
    | StatusUnauthorized
    | StatusAnswered(payload: Option<StatusPayload>)

  /** The status the page keeps from an answer: everything replaced, domains
      defaulting to none and the latency to 0 when the answer has no stats. */
  function StatusOf(p: StatusPayload): (st: Status)
    ensures st.connected == p.connected && st.tunnels == p.tunnels
    ensures p.domains.None? ==> st.domains == []
    ensures p.domains.Some? ==> st.domains == p.domains.value
    ensures st.latency.Some? && (p.stats.None? ==> st.latency.value == 0)
  {
    Status(p.connected, p.tunnels, if p.domains.Some? then p.domains.value else [],
           p.uptime, p.serverAddr, Some(if p.stats.Some? then p.stats.value.latencyMs else 0))
  }

  /** React to a status answer received at `now`; `polled` tells an answer to
      the interval (or the effect) from one to a refresh. A rejected fetch (and
      an undecodable body after the sign-in flag was raised) changes nothing
      more; 401 signs the page out and marks it disconnected but keeps the last
      tunnels and domains; any other answer signs the page in, replaces the
      status, feeds the rate sampler and, when the tab its closure saw is the
      inspector, asks for the captured exchanges. */
  function OnStatus(s: State, outcome: StatusOutcome, now: int, polled: bool): (r: State)
    ensures outcome.StatusRejected? ==> r == s
    ensures outcome.StatusUnauthorized? ==>
              !r.authenticated && !r.status.connected
              && r.status.tunnels == s.status.tunnels && r.status.domains == s.status.domains
              && r.requests == s.requests && r.selection == s.selection
    ensures outcome.StatusAnswered? ==> r.authenticated && r.selection == s.selection
    ensures outcome.StatusAnswered? && outcome.payload.Some? ==>
              r.status == StatusOf(outcome.payload.value)
              && (ClosureTab(s, polled) == InspectorTab <==> r.requests == s.requests + [GetInspect])
              && (ClosureTab(s, polled) != InspectorTab ==> r.requests == s.requests)
    ensures outcome.StatusAnswered? && outcome.payload.None? ==> r == SignIn(s, true)
    ensures PollTabFollows(s, r) && r.activeTab == s.activeTab
    ensures r.confirm == s.confirm && r.selection == s.selection
    ensures ChartOk(s.sampler) ==> ChartOk(r.sampler)
  {
    match outcome
    case StatusRejected => s
    case StatusUnauthorized => SignIn(s, false).(status := s.status.(connected := false))
    case StatusAnswered(None) => SignIn(s, true)
    case StatusAnswered(Some(p)) =>
      var sampler := if p.stats.Some?
        then RateSampler.Observe(s.sampler, RateSampler.Counters(p.stats.value.bytesUp, p.stats.value.bytesDown), now)
        else s.sampler;
      var requests := if ClosureTab(s, polled) == InspectorTab then s.requests + [GetInspect] else s.requests;
      SignIn(s, true).(status := StatusOf(p), sampler := sampler, requests := requests)
  }

  /** React to the captured-exchange list: shown newest first when it arrives. */
  function OnInspect(s: State, logs: Option<seq<Protocol.InspectPayload>>): (r: State)
    ensures logs.None? ==> r == s
    ensures logs.Some? ==> Seqs.Reverse(r.inspectorLogs) == logs.value
    ensures Untouched(s, r)
  {
    match logs
    case None => s
    case Some(l) =>
      Inspector.ShownOrderInverse(l);
      s.(inspectorLogs := Inspector.ShownOrder(l))
  }

  /** How a login request ended. */
  datatype LoginOutcome = LoginRejected | LoginAnswered(ok: bool)

  /** Submit the password. */
  function Login(s: State, outcome: LoginOutcome, now: int): (r: State)
    ensures r.requests == s.requests + [PostLogin(s.password)]
    ensures outcome == LoginAnswered(true) ==> r.authenticated && r.password == "" && r.toasts == s.toasts
    ensures outcome == LoginAnswered(false) ==>
              r.authenticated == s.authenticated && r.toasts == Toasts.Add(s.toasts, now, "Invalid Password", None)
    ensures outcome == LoginRejected ==>
              r.authenticated == s.authenticated && r.toasts == Toasts.Add(s.toasts, now, "Login Failed", None)
    ensures PollTabFollows(s, r)
    ensures Untouched(s, r)
  {
    var s1 := s.(requests := s.requests + [PostLogin(s.password)]);
    match outcome
    case LoginAnswered(true) => SignIn(s1, true).(password := "")
    case LoginAnswered(false) => Toast(s1, now, "Invalid Password", Toasts.Error)
    case LoginRejected => Toast(s1, now, "Login Failed", Toasts.Error)
  }

  /** Sign out: whatever the logout request does, the page forgets the
      password and the status. The selection and the chart are kept. */
  function Logout(s: State): (r: State)
    ensures !r.authenticated && r.password == "" && r.status == EmptyStatus
    ensures r.status.tunnels == [] && r.status.domains == []
    ensures r.requests == s.requests + [GetLogout]
    ensures r.selection == s.selection && r.sampler == s.sampler
    ensures PollTabFollows(s, r)
    ensures Untouched(s, r)
  {
    SignIn(s, false).(password := "", status := EmptyStatus, requests := s.requests + [GetLogout])
  }

  // ---------------------------------------------------------------------------
  // Forms
  // ---------------------------------------------------------------------------

  /** A port field fails the range check only when it has no '-' and parses to
      a number outside 1-65535; text that does not parse passes. */
  function OutOfRange(field: string): (b: bool)
    ensures '-' in field ==> !b
    ensures Text.ParseIntJs(field) == Text.NaN ==> !b
  {
    '-' !in field
    && match Text.ParseIntJs(field)
       case Num(v) => v < PortMin || v > PortMax
       case NaN => false
  }

  datatype FormCheck = MissingField | PublicOutOfRange | LocalOutOfRange | FormOk

  function CheckTunnelForm(f: TunnelForm): (c: FormCheck)
    ensures c == FormOk <==> f.publicPort != "" && f.localPort != ""
                             && !OutOfRange(f.publicPort) && !OutOfRange(f.localPort)
    ensures c == MissingField <==> f.publicPort == "" || f.localPort == ""
  {
    if f.publicPort == "" || f.localPort == "" then MissingField
    else if OutOfRange(f.publicPort) then PublicOutOfRange
    else if OutOfRange(f.localPort) then LocalOutOfRange
    else FormOk
  }

  function CheckMessage(c: FormCheck): string
  {
    match c
    case MissingField => "Please fill in all fields"
    case PublicOutOfRange => "Public port must be 1-65535"
    case LocalOutOfRange => "Local port must be 1-65535"
    case FormOk => ""
  }

  /** How a mutating request ended: a rejected fetch with its error message,
      or an HTTP answer with its status flag and body text. */
  datatype MutationOutcome = Rejected(message: string) | Answered(ok: bool, body: string)
  {
    predicate Succeeded() { Answered? && ok }

    /** The text of the error a failure throws. */
    function ErrorText(): string { if Rejected? then message else body }
  }

  /** Submit the new-tunnel form. A failing check shows its error toast and
      sends nothing. Otherwise the fields are sent as typed; a failure shows
      the error text with its newlines removed; success clears the two port
      fields, refreshes the status and shows a success toast. */
  function SubmitTunnel(s: State, outcome: MutationOutcome, now: int): (r: State)
    ensures CheckTunnelForm(s.tunnelForm) != FormOk ==>
              r.requests == s.requests && r.tunnelForm == s.tunnelForm
              && r.toasts == Toasts.Add(s.toasts, now, CheckMessage(CheckTunnelForm(s.tunnelForm)), None)
    ensures CheckTunnelForm(s.tunnelForm) == FormOk && outcome.Succeeded() ==>
              r.tunnelForm == TunnelForm("", "", s.tunnelForm.protocol)
              && r.requests == s.requests + [PostTunnel(s.tunnelForm.publicPort, s.tunnelForm.localPort, s.tunnelForm.protocol), GetStatus]
              && r.toasts == Toasts.Add(s.toasts, now, "Tunnel initialized successfully", Some(Toasts.Success))
    ensures CheckTunnelForm(s.tunnelForm) == FormOk && !outcome.Succeeded() ==>
              r.tunnelForm == s.tunnelForm
              && r.requests == s.requests + [PostTunnel(s.tunnelForm.publicPort, s.tunnelForm.localPort, s.tunnelForm.protocol)]
              && r.toasts == Toasts.Add(s.toasts, now, Text.RemoveAll(outcome.ErrorText(), '\n'), None)
              && '\n' !in r.toasts[|s.toasts|].message
    ensures Untouched(s, r)
  {
    var check := CheckTunnelForm(s.tunnelForm);
    if check != FormOk then s.(toasts := Toasts.Add(s.toasts, now, CheckMessage(check), None))
    else PostTunnelForm(s, outcome, now)
  }

  /** The form passed its check: post it and report how that went. */
  function PostTunnelForm(s: State, outcome: MutationOutcome, now: int): (r: State)
    ensures outcome.Succeeded() ==>
              r.tunnelForm == TunnelForm("", "", s.tunnelForm.protocol)
              && r.requests == s.requests + [PostTunnel(s.tunnelForm.publicPort, s.tunnelForm.localPort, s.tunnelForm.protocol), GetStatus]
              && r.toasts == Toasts.Add(s.toasts, now, "Tunnel initialized successfully", Some(Toasts.Success))
    ensures !outcome.Succeeded() ==>
              r.tunnelForm == s.tunnelForm
              && r.requests == s.requests + [PostTunnel(s.tunnelForm.publicPort, s.tunnelForm.localPort, s.tunnelForm.protocol)]
              && r.toasts == Toasts.Add(s.toasts, now, Text.RemoveAll(outcome.ErrorText(), '\n'), None)
              && '\n' !in r.toasts[|s.toasts|].message
    ensures Untouched(s, r)
  {
    var f := s.tunnelForm;
    var post := s.requests + [PostTunnel(f.publicPort, f.localPort, f.protocol)];
    if outcome.Succeeded() then
      s.(tunnelForm := TunnelForm("", "", f.protocol), requests := post + [GetStatus],
         toasts := Toasts.Add(s.toasts, now, "Tunnel initialized successfully", Some(Toasts.Success)))
    else
      s.(requests := post, toasts := Toasts.Add(s.toasts, now, Text.RemoveAll(outcome.ErrorText(), '\n'), None))
  }

  /** Submit the new-domain form: both fields are required; the port is sent
      as parsed; success clears the form, refreshes the status and names the
      domain in a success toast; any failure shows one fixed message. */
  function SubmitDomain(s: State, outcome: MutationOutcome, now: int): (r: State)
    ensures s.domainForm.domain == "" || s.domainForm.targetPort == "" ==>
              r.requests == s.requests && r.toasts == Toasts.Add(s.toasts, now, "Please fill in all fields", None)
              && r.domainForm == s.domainForm
    ensures s.domainForm.domain != "" && s.domainForm.targetPort != "" && outcome.Succeeded() ==>
              r.domainForm == DomainForm("", "", "auto")
              && r.requests == s.requests + [PostDomain(s.domainForm.domain, Text.ParseIntJs(s.domainForm.targetPort), s.domainForm.mode), GetStatus]
              && r.toasts == Toasts.Add(s.toasts, now, "Mapped " + s.domainForm.domain, Some(Toasts.Success))
    ensures s.domainForm.domain != "" && s.domainForm.targetPort != "" && !outcome.Succeeded() ==>
              r.requests == s.requests + [PostDomain(s.domainForm.domain, Text.ParseIntJs(s.domainForm.targetPort), s.domainForm.mode)]
              && r.toasts == Toasts.Add(s.toasts, now, "Failed to map domain", None)
              && r.domainForm == s.domainForm
    ensures Untouched(s, r)
  {
    var f := s.domainForm;
    if f.domain == "" || f.targetPort == "" then s.(toasts := Toasts.Add(s.toasts, now, "Please fill in all fields", None))
    else
      var post := s.requests + [PostDomain(f.domain, Text.ParseIntJs(f.targetPort), f.mode)];
      if outcome.Succeeded() then
        s.(domainForm := DomainForm("", "", "auto"), requests := post + [GetStatus],
           toasts := Toasts.Add(s.toasts, now, "Mapped " + f.domain, Some(Toasts.Success)))
      else s.(requests := post, toasts := Toasts.Add(s.toasts, now, "Failed to map domain", None))
  }

  // ---------------------------------------------------------------------------
  // Confirmation dialog and the actions behind it
  // ---------------------------------------------------------------------------

  /** Ask before stopping one tunnel. The whole slot is replaced. */
  function RequestStopTunnel(s: State, publicPort: string): (r: State)
    ensures r.confirm.isOpen && r.confirm.onConfirm == Some(StopTunnel(publicPort, s.selection))
    ensures r.(confirm := s.confirm) == s
    ensures r.selection == s.selection && r.sampler == s.sampler
  {
    s.(confirm := ConfirmSlot(true, "Stop Tunnel?",
                              "This will close the tunnel on port :" + publicPort + ". Are you sure?",
                              Some(StopTunnel(publicPort, s.selection))))
  }

  /** Ask before stopping every selected tunnel. */
  function RequestStopSelected(s: State): (r: State)
    ensures r.confirm.isOpen && r.confirm.onConfirm == Some(StopSelected(|s.selection|, s.selection))
    ensures r.(confirm := s.confirm) == s
    ensures r.selection == s.selection && r.sampler == s.sampler
  {
    s.(confirm := ConfirmSlot(true, "Stop Selected Tunnels?",
                              "You are about to stop " + Text.NatToString(|s.selection|)
                              + " tunnels. This action cannot be undone.",
                              Some(StopSelected(|s.selection|, s.selection))))
  }

  /** Ask before unmapping a domain. */
  function RequestUnmap(s: State, domain: string): (r: State)
    ensures r.confirm.isOpen && r.confirm.onConfirm == Some(UnmapDomain(domain))
    ensures r.(confirm := s.confirm) == s
    ensures r.selection == s.selection && r.sampler == s.sampler
  {
    s.(confirm := ConfirmSlot(true, "Unmap Domain?",
                              "This will remove the mapping for " + domain + ". It will no longer point to your tunnel.",
                              Some(UnmapDomain(domain))))
  }

  /** Close the dialog; its action stays in the slot but is never run. */
  function Cancel(s: State): (r: State)
    ensures !r.confirm.isOpen && r.confirm.onConfirm == s.confirm.onConfirm
    ensures r.(confirm := s.confirm) == s
    ensures r.selection == s.selection && r.sampler == s.sampler
  {
    s.(confirm := s.confirm.(isOpen := false))
  }

  /** How the network settled a confirmed action: the index of the first
      request whose fetch was rejected (for a single-request action any index
      means its one request), and when the action finished. */
  datatype Settlement = Settlement(rejectAt: Option<nat>, settledAt: int)

  function PortNumbers(keys: seq<string>): seq<Text.JsNumber>
  {
    seq(|keys|, i requires 0 <= i < |keys| => Text.ParseIntJs(keys[i]))
  }

  function DeleteRequests(chunks: seq<seq<Text.JsNumber>>): (r: seq<Request>)
    ensures |r| == |chunks|
    ensures forall i :: 0 <= i < |r| ==> r[i] == DeleteTunnels(chunks[i])
  {
    if |chunks| == 0 then [] else [DeleteTunnels(chunks[0])] + DeleteRequests(chunks[1..])
  }

  /** Run a stop of the selected tunnels captured when it was requested. */
  function RunBulk(s: State, total: nat, selectionThen: seq<string>, st: Settlement): (r: State)
    ensures r.bulkDeleting && r.bulkTimers == s.bulkTimers + [st.settledAt + BulkHideDelayMs]
    ensures r.progress.total == total
    ensures var run := BulkDelete.Stop(PortNumbers(selectionThen), st.rejectAt);
            && (run.succeeded ==>
                  r.selection == [] && r.requests == s.requests + DeleteRequests(run.requests) + [GetStatus]
                  && r.toasts == Toasts.Add(s.toasts, st.settledAt, "STOPPED " + Text.NatToString(total) + " TUNNELS", Some(Toasts.Success))
                  && r.progress.current == |selectionThen|)
            && (!run.succeeded ==>
                  r.selection == s.selection && r.requests == s.requests + DeleteRequests(run.requests)
                  && r.toasts == Toasts.Add(s.toasts, st.settledAt, "FAILED TO STOP SOME TUNNELS", None))
    ensures r.confirm == s.confirm && r.sampler == s.sampler
  {
    var run := BulkDelete.Stop(PortNumbers(selectionThen), st.rejectAt);
    var s1 := s.(bulkDeleting := true,
                 progress := Progress(run.progress[|run.progress| - 1], total),
                 requests := s.requests + DeleteRequests(run.requests),
                 bulkTimers := s.bulkTimers + [st.settledAt + BulkHideDelayMs]);
    if run.succeeded then
      Toast(s1.(selection := [], requests := s1.requests + [GetStatus]),
            st.settledAt, "STOPPED " + Text.NatToString(total) + " TUNNELS", Toasts.Success)
    else Toast(s1, st.settledAt, "FAILED TO STOP SOME TUNNELS", Toasts.Error)
  }

  /** Run a confirmed action. */
  function RunAction(s: State, a: Action, st: Settlement): (r: State)
    ensures a.StopTunnel? && st.rejectAt.None? ==>
              a.publicPort !in r.selection || (a.publicPort !in a.selectionThen && r.selection == s.selection)
    ensures a.StopTunnel? && st.rejectAt.None? && a.publicPort in a.selectionThen ==>
              r.selection == Selection.Without(a.selectionThen, a.publicPort)
    ensures a.StopTunnel? && st.rejectAt.Some? ==> r.selection == s.selection
    ensures !a.StopSelected? ==> r.bulkTimers == s.bulkTimers
    ensures r.confirm == s.confirm && r.sampler == s.sampler
    ensures Selection.NoDup(s.selection) && ActionOk(a) ==> Selection.NoDup(r.selection)
  {
    match a
    case StopTunnel(pub, selThen) =>
      var s1 := s.(requests := s.requests + [DeleteTunnel(Text.ParseIntJs(pub))]);
      if st.rejectAt.Some? then Toast(s1, st.settledAt, "Failed to close tunnel", Toasts.Error)
      else
        var s2 := s1.(requests := s1.requests + [GetStatus]);
        var s3 := if pub in selThen then s2.(selection := Selection.Without(selThen, pub)) else s2;
        Toast(s3, st.settledAt, "Tunnel :" + pub + " closed", Toasts.Success)
    case StopSelected(total, selThen) => RunBulk(s, total, selThen, st)
    case UnmapDomain(d) =>
      var s1 := s.(requests := s.requests + [DeleteDomain(d)]);
      if st.rejectAt.Some? then Toast(s1, st.settledAt, "Failed to unmap domain", Toasts.Error)
      else Toast(s1.(requests := s1.requests + [GetStatus]), st.settledAt, "Unmapped " + d, Toasts.Success)
  }

  /** Press Confirm: the dialog's action runs once and the dialog closes. With
      no dialog open there is no button and nothing happens. */
  function Confirm(s: State, st: Settlement): (r: State)
    ensures !s.confirm.isOpen || s.confirm.onConfirm.None? ==> r == s
    ensures s.confirm.isOpen && s.confirm.onConfirm.Some? ==>
              r == RunAction(s.(confirm := s.confirm.(isOpen := false)), s.confirm.onConfirm.value, st)
              && !r.confirm.isOpen
  {
    if !s.confirm.isOpen || s.confirm.onConfirm.None? then s
    else RunAction(s.(confirm := s.confirm.(isOpen := false)), s.confirm.onConfirm.value, st)
  }

  /** The 500 ms timers of finished bulk stops that are due at `now` hide the
      progress dialog. */
  function FireTimers(s: State, now: int): (r: State)
    ensures (exists i :: 0 <= i < |s.bulkTimers| && s.bulkTimers[i] <= now) ==> !r.bulkDeleting
    ensures (forall i :: 0 <= i < |s.bulkTimers| ==> s.bulkTimers[i] > now) ==> r == s
    ensures forall t :: t in r.bulkTimers <==> t in s.bulkTimers && t > now
    ensures Untouched(s, r)
  {
    var pending := Pending(s.bulkTimers, now);
    if |pending| == |s.bulkTimers| then
      PendingAll(s.bulkTimers, now);
      s
    else s.(bulkDeleting := false, bulkTimers := pending)
  }

  function Pending(ts: seq<int>, now: int): (r: seq<int>)
    ensures |r| <= |ts|
    ensures forall t :: t in r <==> t in ts && t > now
    ensures |r| == |ts| <==> forall i :: 0 <= i < |ts| ==> ts[i] > now
  {
    if |ts| == 0 then []
    else if ts[0] > now then [ts[0]] + Pending(ts[1..], now)
    else Pending(ts[1..], now)
  }

  lemma {:induction false} PendingAll(ts: seq<int>, now: int)
    requires forall i :: 0 <= i < |ts| ==> ts[i] > now
    ensures Pending(ts, now) == ts
  {
    if |ts| > 0 {
      PendingAll(ts[1..], now);
    }
  }

  // ---------------------------------------------------------------------------
  // Events
  // ---------------------------------------------------------------------------

  datatype Event =
    | TickEvent
    | StatusEvent(outcome: StatusOutcome, at: int, polled: bool)
    | InspectEvent(logs: Option<seq<Protocol.InspectPayload>>)
    | TypePassword(password: string)
    | LoginEvent(loginOutcome: LoginOutcome, at: int)
    | LogoutEvent
    | SwitchTab(tab: Tab)
    | PickLog(id: string)
    | EditTunnelForm(form: TunnelForm)
    | SubmitTunnelEvent(mutation: MutationOutcome, at: int)
    | EditDomainForm(dform: DomainForm)
    | SubmitDomainEvent(mutation: MutationOutcome, at: int)
    | ToggleRow(publicPort: string)
    | ToggleAllRows
    | AskStopTunnel(publicPort: string)
    | AskStopSelected
    | AskUnmap(domain: string)
    | CancelEvent
    | ConfirmEvent(settlement: Settlement)
    | TimersDue(at: int)
    | DismissToast(toastId: int)

  /** Answers from the API and the timers. */
  function PollStep(s: State, e: Event): State
  {
    match e
    case TickEvent => Tick(s)
    case StatusEvent(o, at, polled) => OnStatus(s, o, at, polled)
    case InspectEvent(logs) => OnInspect(s, logs)
    case TimersDue(at) => FireTimers(s, at)
    case _ => s
  }

  /** Signing in and out. */
  function SessionStep(s: State, e: Event): State
  {
    match e
    case TypePassword(p) => s.(password := p)
    case LoginEvent(o, at) => Login(s, o, at)
    case LogoutEvent => Logout(s)
    case _ => s
  }

  /** The two forms. */
  function FormStep(s: State, e: Event): State
  {
    match e
    case EditTunnelForm(f) => s.(tunnelForm := f)
    case SubmitTunnelEvent(o, at) => SubmitTunnel(s, o, at)
    case EditDomainForm(f) => s.(domainForm := f)
    case SubmitDomainEvent(o, at) => SubmitDomain(s, o, at)
    case _ => s
  }

  /** Tabs, the inspector pick, the row check boxes and the toasts. */
  function ViewStep(s: State, e: Event): State
  {
    match e
    case SwitchTab(t) => s.(activeTab := t)
    case PickLog(id) => s.(selectedLogId := Some(id))
    case ToggleRow(p) => s.(selection := Selection.Toggle(s.selection, p))
    case ToggleAllRows => s.(selection := Selection.ToggleAll(s.selection, Keys(s.status.tunnels)))
    case DismissToast(id) => s.(toasts := Toasts.Remove(s.toasts, id))
    case _ => s
  }

  /** The confirmation dialog. */
  function DialogStep(s: State, e: Event): State
  {
    match e
    case AskStopTunnel(p) => RequestStopTunnel(s, p)
    case AskStopSelected => RequestStopSelected(s)
    case AskUnmap(d) => RequestUnmap(s, d)
    case CancelEvent => Cancel(s)
    case ConfirmEvent(st) => Confirm(s, st)
    case _ => s
  }

  function Step(s: State, e: Event): State
  {
    match e
    case TickEvent | StatusEvent(_, _, _) | InspectEvent(_) | TimersDue(_) => PollStep(s, e)
    case TypePassword(_) | LoginEvent(_, _) | LogoutEvent => SessionStep(s, e)
    case EditTunnelForm(_) | SubmitTunnelEvent(_, _) | EditDomainForm(_) | SubmitDomainEvent(_, _) => FormStep(s, e)
    case SwitchTab(_) | PickLog(_) | ToggleRow(_) | ToggleAllRows | DismissToast(_) => ViewStep(s, e)
    case AskStopTunnel(_) | AskStopSelected | AskUnmap(_) | CancelEvent | ConfirmEvent(_) => DialogStep(s, e)
  }

  function Run(s: State, es: seq<Event>): State
    decreases |es|
  {
    if |es| == 0 then s else Run(Step(s, es[0]), es[1..])
  }

  // ---------------------------------------------------------------------------
  // Properties
  // ---------------------------------------------------------------------------

  /** A stop of one tunnel captured a selection without repeats. */
  predicate ActionOk(a: Action)
  {
    a.StopTunnel? ==> Selection.NoDup(a.selectionThen)
  }

  /** An open dialog has an action to run. */
  predicate DialogOk(c: ConfirmSlot)
  {
    (c.isOpen ==> c.onConfirm.Some?) && (c.onConfirm.Some? ==> ActionOk(c.onConfirm.value))
  }

  /** The chart buffer is bounded and its rates are not negative. */
  predicate ChartOk(sp: RateSampler.Sampler)
  {
    |sp.data| <= RateSampler.BufferSize && RateSampler.NonNegative(sp.data)
  }

  /** What every reachable page state satisfies: an open dialog has an action,
      the selection has no repeats, the chart buffer is bounded and its rates
      are not negative. */
  predicate Valid(s: State)
  {
    DialogOk(s.confirm) && Selection.NoDup(s.selection) && ChartOk(s.sampler)
  }

  lemma ConfirmValid(s: State, st: Settlement)
    requires Valid(s)
    ensures Valid(Confirm(s, st))
  {
    if s.confirm.isOpen && s.confirm.onConfirm.Some? {
      var s0 := s.(confirm := s.confirm.(isOpen := false));
      assert DialogOk(s0.confirm);
    }
  }

  lemma PollStepValid(s: State, e: Event)
    requires Valid(s)
    ensures Valid(PollStep(s, e))
  {
  }

  lemma SessionStepValid(s: State, e: Event)
    requires Valid(s)
    ensures Valid(SessionStep(s, e))
  {
  }

  lemma FormStepValid(s: State, e: Event)
    requires Valid(s)
    ensures Valid(FormStep(s, e))
  {
  }

  lemma ViewStepValid(s: State, e: Event)
    requires Valid(s)
    ensures Valid(ViewStep(s, e))
  {
  }

  lemma DialogStepValid(s: State, e: Event)
    requires Valid(s)
    ensures Valid(DialogStep(s, e))
  {
    if e.ConfirmEvent? {
      ConfirmValid(s, e.settlement);
    }
  }

  /** Every transition keeps Valid. */
  lemma StepValid(s: State, e: Event)
    requires Valid(s)
    ensures Valid(Step(s, e))
  {
    PollStepValid(s, e);
    SessionStepValid(s, e);
    FormStepValid(s, e);
    ViewStepValid(s, e);
    DialogStepValid(s, e);
  }

  /** Every state reachable from the first render satisfies Valid. */
  lemma {:induction false} RunValid(s: State, es: seq<Event>)
    requires Valid(s)
    ensures Valid(Run(s, es))
    decreases |es|
  {
    if |es| > 0 {
      StepValid(s, es[0]);
      RunValid(Step(s, es[0]), es[1..]);
    }
  }

  lemma InitValid(now: int)
    ensures Valid(Init(now))
  {
  }

  /** Opening the dialog does not depend on what the slot held before. */
  lemma AskIgnoresSlot(s: State, e: Event, slot: ConfirmSlot)
    requires e.AskStopTunnel? || e.AskStopSelected? || e.AskUnmap?
    ensures Step(s.(confirm := slot), e) == Step(s, e)
  {
    StepIsDialog(s.(confirm := slot), e);
    StepIsDialog(s, e);
    DialogIgnoresSlot(s, e, slot);
  }

  lemma StepIsDialog(s: State, e: Event)
    requires e.AskStopTunnel? || e.AskStopSelected? || e.AskUnmap?
    ensures Step(s, e) == DialogStep(s, e)
  {
  }

  lemma DialogIgnoresSlot(s: State, e: Event, slot: ConfirmSlot)
    requires e.AskStopTunnel? || e.AskStopSelected? || e.AskUnmap?
    ensures DialogStep(s.(confirm := slot), e) == DialogStep(s, e)
  {
  }

  /** The dialog has one slot: a second request replaces the first entirely,
      so the first action is dropped without ever running. */
  lemma {:induction false} LastRequestWins(s: State, first: Event, second: Event)
    requires first.AskStopTunnel? || first.AskStopSelected? || first.AskUnmap?
    requires second.AskStopTunnel? || second.AskStopSelected? || second.AskUnmap?
    ensures Step(Step(s, first), second) == Step(s, second)
  {
    var s1 := Step(s, first);
    assert s1 == s.(confirm := s1.confirm);
    AskIgnoresSlot(s, second, s1.confirm);
  }

  /** A cancelled dialog's action can no longer run. */
  lemma CancelledNeverRuns(s: State, st: Settlement)
    ensures Confirm(Cancel(s), st) == Cancel(s)
  {
  }

  /** Confirm runs the action once: a second press finds the dialog closed. */
  lemma ConfirmRunsOnce(s: State, st1: Settlement, st2: Settlement)
    requires s.confirm.isOpen && s.confirm.onConfirm.Some?
    ensures Confirm(Confirm(s, st1), st2) == Confirm(s, st1)
  {
    var a := s.confirm.onConfirm.value;
    var s0 := s.(confirm := s.confirm.(isOpen := false));
    assert RunAction(s0, a, st1).confirm == s0.confirm by {
      match a
      case StopSelected(total, selThen) =>
      case _ =>
    }
  }

  /** Confirming a stop of one tunnel that went through removes that tunnel
      from the selection it captured; one that was rejected leaves the
      selection alone. */
  lemma {:induction false} StopTunnelDeselects(s: State, publicPort: string, settledAt: int)
    requires Selection.NoDup(s.selection)
    ensures var r := Confirm(RequestStopTunnel(s, publicPort), Settlement(None, settledAt));
            publicPort !in r.selection
            && forall y :: y != publicPort ==> (y in r.selection <==> y in s.selection)
    ensures Confirm(RequestStopTunnel(s, publicPort), Settlement(Some(0), settledAt)).selection == s.selection
  {
  }

  /** A bulk stop whose first request is rejected sends exactly that one
      request, keeps the selection, does not refresh, and shows the failure
      toast; its dialog disappears 500 ms after it settled. */
  lemma {:induction false} BulkRejectedFirst(s: State, settledAt: int)
    requires |s.selection| > 0 && s.bulkTimers == []
    ensures var r := Confirm(RequestStopSelected(s), Settlement(Some(0), settledAt));
            && r.selection == s.selection
            && |r.requests| == |s.requests| + 1
            && r.requests[|s.requests|].DeleteTunnels?
            && r.toasts == Toasts.Add(s.toasts, settledAt, "FAILED TO STOP SOME TUNNELS", None)
            && r.bulkDeleting
            && !FireTimers(r, settledAt + 500).bulkDeleting
            && FireTimers(r, settledAt + 499).bulkDeleting
  {
    var s1 := RequestStopSelected(s);
    var st := Settlement(Some(0), settledAt);
    var run := BulkDelete.Stop(PortNumbers(s.selection), Some(0));
    assert |BulkDelete.Chunks(PortNumbers(s.selection))| >= 1;
    assert run.requests == BulkDelete.Chunks(PortNumbers(s.selection))[..1];
    var r := Confirm(s1, st);
    assert r.bulkTimers == [settledAt + 500];
    assert r.requests == s.requests + DeleteRequests(run.requests);
  }

  /** A bulk stop that goes through empties the selection and refreshes once. */
  lemma {:induction false} BulkSucceeded(s: State, settledAt: int)
    ensures var r := Confirm(RequestStopSelected(s), Settlement(None, settledAt));
            && r.selection == []
            && r.requests[|r.requests| - 1] == GetStatus
            && r.progress == Progress(|s.selection|, |s.selection|)
            && r.toasts == Toasts.Add(s.toasts, settledAt,
                                      "STOPPED " + Text.NatToString(|s.selection|) + " TUNNELS", Some(Toasts.Success))
  {
  }

  /** Digits contain no '-', so a plain number is always range-checked. */
  lemma DigitsHaveNoDash(t: string)
    requires Text.AllDigits(t)
    ensures '-' !in t
  {
  }

  /** A field holding a plain decimal number fails the range check exactly
      when the number is outside 1-65535. */
  lemma {:induction false} NumberFieldChecked(n: nat)
    ensures OutOfRange(Text.NatToString(n)) <==> n < PortMin || n > PortMax
  {
    var t := Text.NatToString(n);
    Text.ParseIntJsOfNatToString(n, "");
    assert t + "" == t;
    DigitsHaveNoDash(t);
  }

  /** A field with no digit at all parses to NaN and passes the range check. */
  lemma {:induction false} NonNumberPasses(t: string)
    requires forall i :: 0 <= i < |t| ==> !Text.IsDigit(t[i])
    ensures !OutOfRange(t)
  {
  }

  /** A range such as "8000-8010" skips the range check on both fields. */
  lemma RangeSkipsCheck(pub: string, loc: string)
    requires '-' in pub && '-' in loc
    ensures CheckTunnelForm(TunnelForm(pub, loc, "TCP")) == FormOk
  {
  }

  /** A 401 keeps the tunnels and domains on screen while signing the page out;
      the next interval still polls. */
  lemma {:induction false} UnauthorizedKeepsData(s: State, at: int)
    ensures var r := Step(Step(s, StatusEvent(StatusUnauthorized, at, true)), TickEvent);
            !r.authenticated && !r.status.connected
            && r.status.tunnels == s.status.tunnels && r.status.domains == s.status.domains
            && r.requests == s.requests + [GetStatus]
  {
  }

  /** Interval polls fetch the captured exchanges according to the tab that
      was active when the sign-in flag last changed, whatever tab is shown
      now; the refresh after an action goes by the tab shown now. */
  lemma {:induction false} PollsUseSignInTab(s: State, tab: Tab, p: StatusPayload, at: int)
    requires s.authenticated
    ensures var r := Step(Step(s, SwitchTab(tab)), StatusEvent(StatusAnswered(Some(p)), at, true));
            r.requests == s.requests + [GetInspect] <==> s.pollTab == InspectorTab
    ensures var r := Step(Step(s, SwitchTab(tab)), StatusEvent(StatusAnswered(Some(p)), at, false));
            r.requests == s.requests + [GetInspect] <==> tab == InspectorTab
  {
    var s1 := Step(s, SwitchTab(tab));
    assert s1 == s.(activeTab := tab);
    assert ClosureTab(s1, true) == s.pollTab;
  }

  /** Signed in on the tunnels tab, then switched to the inspector: the
      interval's answers fetch no captured exchange until the sign-in flag
      changes again. */
  lemma {:induction false} InspectorAfterSignInIsStale(now: int, p: StatusPayload, at: int)
    ensures var s1 := OnStatus(Init(now), StatusAnswered(Some(p)), at, true);
            var s2 := s1.(activeTab := InspectorTab);
            s1.authenticated && s1.pollTab == TunnelsTab
            && OnStatus(s2, StatusAnswered(Some(p)), at, true).requests == s2.requests
            && OnStatus(s2, StatusAnswered(Some(p)), at, false).requests == s2.requests + [GetInspect]
  {
    var s1 := OnStatus(Init(now), StatusAnswered(Some(p)), at, true);
    assert s1.pollTab == TunnelsTab;
    var s2 := s1.(activeTab := InspectorTab);
    assert ClosureTab(s2, true) == TunnelsTab;
    assert ClosureTab(s2, false) == InspectorTab;
  }
}
