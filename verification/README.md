# TunnelCow, modelled in Dafny

TunnelCow exposes local ports through a public server. A client opens a
control link to the server. The server listens on public ports for that
client and routes web traffic for mapped domains. The client runs a
dashboard: a web page and a small JSON API. On the server, the client's
setup wizards draw boxes and menus in the terminal.

This project models the bookkeeping and decision rules of that system as
pure Dafny functions over immutable datatypes, and proves what they
promise. Networking, crypto, files, clocks and goroutines are outside the
model. Their outcomes are parameters: whether a listen succeeded, how a
fetch settled, the random bytes, the current time.

| file | module | models |
|---|---|---|
| wrappers.dfy | Wrappers | `Option` and `Result` |
| text.dfy | Text | the parts of Go's `strconv`/`strings` and JavaScript's `parseInt` the code relies on |
| seqs.dfy | Seqs | keeping the newest n elements, and reversal |
| protocol.dfy | Protocol | message types, constants, the inspection record, JSON field decoding |
| base64url.dfy | Base64Url | URL-safe base64 with padding (section 5 of RFC 4648) |
| auth_sessions.dfy | AuthSessions | the dashboard's session table (internal/auth/auth.go) |
| client_manager.dfy | ClientManager | the client's tunnel and domain registry (manager.go) |
| client_api.dfy | ClientApi | the dashboard API handlers (api.go) |
| server_sessions.dfy | ServerSessions | the port → session registry (sessions.go) |
| server_domains.dfy | ServerDomains | the server's domain table (domains.go) |
| server_limiter.dfy | RateLimiter | the fixed-window per-address limiter (limiter.go) |
| server_control.dfy | ServerControl | bind, unbind, ping and cleanup on the control link (control.go) |
| server_main.dfy | ServerMain | body capture, start-up settings, HTTPS/HTTP routing (main.go) |
| web_dashboard.dfy | Dashboard | the page's state and every transition of it (App.jsx) |
| web_sampler.dfy | RateSampler | the throughput chart buffer (App.jsx) |
| web_selection.dfy | Selection | the selected-tunnels set (App.jsx) |
| web_bulk.dfy | BulkDelete | chunked bulk stop (App.jsx) |
| web_toasts.dfy | Toasts | the notification list and its timers (App.jsx) |
| web_inspector.dfy | Clock, Inspector | the uptime clock and the inspector tab (App.jsx) |
| ui_logger.dfy | UiLogger | the bounded terminal log (logger.go) |
| ui_input.dfy | UiInput | key decoding, the arrow-key menu, the line editor (input.go) |
| ui_box.dfy | UiBox | ANSI stripping and box geometry (box.go) |

## Modelling choices

- **Go strings.** A Go string is a `string` whose characters are its bytes, so `len` and slicing count bytes as Go does. `Text.TrimSpace` therefore recognises the UTF-8 byte sequences of the Unicode white-space runes (U+0085, U+00A0, U+1680, U+2000-U+200A, U+2028, U+2029, U+202F, U+205F, U+3000) as well as the ASCII ones. What a terminal shows is counted separately, in columns: one per byte that is not a UTF-8 continuation byte (`UiBox.Columns`).
- **JavaScript strings.** A JavaScript string is a `string` of code points; `Inspector.Utf16` gives the UTF-16 code units that `length` and `substring` count.
- **JSON objects.** A decoded object keeps its members in document order, repeated keys included. A member sets a struct field when its key equals the field's tag up to case, as `encoding/json` matches keys; a later member overrides an earlier one, `null` leaves a scalar field alone and empties a slice, and a value of the wrong type fails the whole decoding.
- **Maps and sets.**
  - Go maps become Dafny `map`s.
  - A JavaScript object shown as a list (`Object.entries`) becomes a sequence of pairs. No order or uniqueness of keys is assumed: the lemmas hold for every sequence.
  - A JavaScript `Set` becomes a sequence without repeats, in insertion order.
- **Panics.** A Go panic (a negative `strings.Repeat` count, a slice past the end) becomes `None`.
- **The page.** The dashboard is a state record, a set of events and a `Step` function. Each API call the page makes is appended to `requests`. How it settled arrives as the payload of a later event.
- **Stale closures.** The polling interval is re-created only when the sign-in state changes (App.jsx:95-100), so its `fetchStatus` sees the tab that was active at that moment. The state keeps that tab as `pollTab`; a status answer says whether it came from the interval (`polled`) or from a refresh after an action, which sees the current tab.
- **Confirmation actions.** A confirmation action captures the selection at the moment the dialog opens, as the JavaScript closure does.
- **Integers and rates.** Integers are unbounded. Where a Go `int` can wrap (the local port of a range item) the model wraps it explicitly with `ClientManager.Wrap64`. Rates are `real`.
- **Where the project's written description and its code disagree, the model follows the code:**
  - Polling starts whatever the sign-in state (App.jsx:95-100).
  - A failed bulk stop keeps the selection and does not refresh (App.jsx:309-311).
  - Only the response body is cut at 2000 UTF-16 code units in the inspector (App.jsx:860).
  - The header checkbox compares sizes, not sets (App.jsx:269).
  - A poll that removes tunnels does not prune the selection.
  - The HTTP redirect keeps the port of the `Host` header (main.go:224). The table lookup uses the host without it (main.go:180-185).

## Model

| member | source | states |
|---|---|---|
| Dashboard.Init | web/src/App.jsx:77-93 | the page starts signed out, with an empty status, no selection, no requests and a closed dialog |
| Dashboard.Tick | web/src/App.jsx:95-100 | each interval requests the status once whether or not the page is signed in, and changes nothing else |
| Dashboard.StatusOf | web/src/App.jsx:155-162 | the new status takes connected and tunnels from the answer; domains default to empty and latency to 0 |
| Dashboard.OnStatus | web/src/App.jsx:142-185 | a 401 signs the page out and marks it disconnected but keeps tunnels and domains; any other answer signs in and replaces the status; a network failure changes nothing; the chart stays bounded and non-negative; the inspection log is fetched exactly when the tab the answering closure saw is the inspector |
| Dashboard.PollsUseSignInTab | web/src/App.jsx:95-100 | after a tab switch an interval poll still fetches the inspection log by the tab of the last sign-in change, while a refresh uses the new tab |
| Dashboard.InspectorAfterSignInIsStale | web/src/App.jsx:95-100 | switching to the inspector after signing in never makes the interval fetch the inspection log |
| Dashboard.OnInspect | web/src/App.jsx:180-186 | a fetched inspection log is shown newest first (its reversal is the fetched log); a failed fetch changes nothing |
| Dashboard.Login | web/src/App.jsx:111-128 | a login posts the typed password; success signs in and clears it; a rejection or failure adds the matching error toast |
| Dashboard.Logout | web/src/App.jsx:131-140 | logout requests the logout, signs out, clears the password and empties tunnels and domains, keeping selection and chart |
| Dashboard.OutOfRange | web/src/App.jsx:203-209 | a field containing '-' and a field that parses to NaN are never out of range |
| Dashboard.CheckTunnelForm | web/src/App.jsx:195-210 | the form passes exactly when both fields are filled and neither is a plain number outside 1-65535; a missing field is reported first |
| Dashboard.SubmitTunnel | web/src/App.jsx:193-233 | a failed check toasts its message as an error and sends nothing; otherwise one POST with the form's fields is sent; success clears both ports, refreshes and toasts "Tunnel initialized successfully" as a success; a rejection or network failure toasts its text with the newlines removed and keeps the form |
| Dashboard.SubmitDomain | web/src/App.jsx:321-345 | an empty field toasts "Please fill in all fields" and sends nothing; otherwise one POST is sent; success resets the form, refreshes and toasts "Mapped " + domain as a success; any failure toasts "Failed to map domain" |
| Dashboard.RequestStopTunnel | web/src/App.jsx:235-258 | asking to stop one tunnel opens the dialog with that stop as its only action and changes nothing else |
| Dashboard.RequestStopSelected | web/src/App.jsx:276-283 | asking to stop the selection opens the dialog with a bulk stop of the current selection and its size |
| Dashboard.RequestUnmap | web/src/App.jsx:347-366 | asking to unmap a domain opens the dialog with that unmap as its action |
| Dashboard.Cancel | web/src/App.jsx:410 | cancel only closes the dialog; the stored action stays but can no longer run |
| Dashboard.RunBulk | web/src/App.jsx:283-316 | a bulk stop sends the chunks up to the first rejected one; success clears the selection, refreshes, reaches full progress and toasts "STOPPED n TUNNELS"; failure toasts once and keeps the selection; either way a hide timer is set 500 ms after it settles |
| Dashboard.RunAction | web/src/App.jsx:240-256 | a confirmed single stop that went through removes that port from the selection it captured; a rejected one leaves the selection alone |
| Dashboard.Confirm | web/src/App.jsx:65 | confirm runs the stored action only when the dialog is open, then closes it |
| Dashboard.FireTimers | web/src/App.jsx:313-315 | a due hide timer hides the bulk modal; timers not yet due stay pending |
| Dashboard.Pending | web/src/App.jsx:313-315 | the timers that remain are exactly those later than now |
| Dashboard.PendingAll | web/src/App.jsx:313-315 | when no timer is due all of them remain, in order |
| Dashboard.InitValid | web/src/App.jsx:77-93 | the initial page satisfies the invariant: an open dialog has an action, the selection has no repeats, the chart is bounded and non-negative |
| Dashboard.ConfirmValid | web/src/App.jsx:65 | confirming keeps the invariant |
| Dashboard.PollStepValid | web/src/App.jsx:95-186 | polling, inspection answers and timers keep the invariant |
| Dashboard.SessionStepValid | web/src/App.jsx:111-140 | typing the password, login and logout keep the invariant |
| Dashboard.FormStepValid | web/src/App.jsx:193-345 | editing and submitting the forms keep the invariant |
| Dashboard.ViewStepValid | web/src/App.jsx:260-274 | tab switches, row and header checkboxes and dismissed toasts keep the invariant |
| Dashboard.DialogStepValid | web/src/App.jsx:235-366 | opening, cancelling and confirming the dialog keep the invariant |
| Dashboard.StepValid | web/src/App.jsx:76-414 | every event keeps the invariant |
| Dashboard.RunValid | web/src/App.jsx:76-414 | every sequence of events from a valid page ends in a valid page |
| Dashboard.AskIgnoresSlot | web/src/App.jsx:236-240 | opening the dialog does not depend on what it held before |
| Dashboard.LastRequestWins | web/src/App.jsx:236-240 | two requests in a row leave the page as the second alone would: the first action is dropped unrun |
| Dashboard.CancelledNeverRuns | web/src/App.jsx:410 | confirming after a cancel does nothing |
| Dashboard.ConfirmRunsOnce | web/src/App.jsx:65 | a second confirm after the first does nothing |
| Dashboard.StopTunnelDeselects | web/src/App.jsx:247-251 | a stop of one tunnel that went through removes exactly that port from the selection; a rejected one keeps it |
| Dashboard.BulkRejectedFirst | web/src/App.jsx:291-316 | a bulk stop whose first request is rejected sends one request, keeps the selection, shows the failure toast once, and the modal disappears exactly 500 ms later |
| Dashboard.BulkSucceeded | web/src/App.jsx:291-308 | a bulk stop that goes through empties the selection, ends with a refresh, reaches full progress and shows the success toast |
| Dashboard.NumberFieldChecked | web/src/App.jsx:203-209 | a plain decimal field fails the check exactly when its number is outside 1-65535 |
| Dashboard.NonNumberPasses | web/src/App.jsx:200-209 | a field without digits parses to NaN and passes the range check |
| Dashboard.RangeSkipsCheck | web/src/App.jsx:203-209 | fields containing '-' are never range-checked |
| Dashboard.UnauthorizedKeepsData | web/src/App.jsx:95-149 | after a 401 the page is signed out and disconnected, shows the old tunnels and domains, and still polls |
| RateSampler.Initial | web/src/App.jsx:83-84 | the chart starts empty with the load time as baseline |
| RateSampler.Rate | web/src/App.jsx:166-169 | a rate is max(0, Δbytes/Δseconds): never negative, zero when the counter went down |
| RateSampler.SampleOf | web/src/App.jsx:166-173 | a point carries the reading's time and two non-negative rates |
| RateSampler.Observe | web/src/App.jsx:164-177 | a reading no later than the baseline changes nothing; otherwise one point is appended, the newest 60 kept, and the baseline becomes the reading |
| RateSampler.AcceptedStep | web/src/App.jsx:171-176 | one accepted reading extends the unbounded history by its point and moves the baseline |
| RateSampler.FeedKeepsNewest | web/src/App.jsx:164-177 | after any run of readings the buffer holds exactly the newest 60 points the readings produce, all non-negative |
| RateSampler.RateExample | web/src/App.jsx:166-169 | 1500 bytes in one second is 1500 B/s, and a falling counter gives 0 |
| Selection.Without | web/src/App.jsx:248-249 | deleting removes that key only and keeps the set free of repeats |
| Selection.FromList | web/src/App.jsx:272 | a set built from the keys holds each key once, in first-seen order |
| Selection.Toggle | web/src/App.jsx:260-265 | toggling flips the membership of that key and of no other |
| Selection.ToggleAll | web/src/App.jsx:267-274 | the header checkbox empties the set when its size equals the tunnel count, otherwise selects every tunnel |
| Selection.ToggleTwice | web/src/App.jsx:260-265 | toggling a key twice restores the members |
| Selection.ToggleAllTwiceFromEmpty | web/src/App.jsx:267-274 | two presses of the header checkbox from empty end empty |
| Selection.FiveTunnels | web/src/App.jsx:267-274 | with five tunnels the first press selects all five and the second clears them |
| Selection.StaleSelectionClears | web/src/App.jsx:269 | a selection holding a vanished tunnel's key is cleared, not replaced, because only sizes are compared |
| Toasts.Add | web/src/App.jsx:102-105 | a toast is appended with id = now, the message, and kind error unless given |
| Toasts.Remove | web/src/App.jsx:107-109 | every toast with that id goes, the others stay in order |
| Toasts.RemoveConcat | web/src/App.jsx:107-109 | removal works piecewise, so it keeps the order of the others |
| Toasts.AddThenRemove | web/src/App.jsx:102-109 | removing the id just added undoes the addition |
| Toasts.CloseStart | web/src/App.jsx:930-940 | a toast starts closing at 5000 ms, or earlier when dismissed |
| Toasts.RemovalTime | web/src/App.jsx:937-940 | a toast leaves the list 400 ms after it starts closing, so by 5400 ms at the latest |
| Toasts.Shown | web/src/App.jsx:930-940 | a toast is slid in from 10 ms until it starts closing; a dismissal before 10 ms does not cancel the enter timer, so it is then shown until it is removed |
| Toasts.EarlyDismissStillShows | web/src/App.jsx:930-940 | dismissed at 5 ms, a toast appears at 10 ms and stays until it leaves at 405 ms |
| BulkDelete.Chunks | web/src/App.jsx:287-293 | the chunks concatenate back to the ports, each holds 1-50 ports, all but the last exactly 50 |
| BulkDelete.ProcessedAfter | web/src/App.jsx:301-302 | after k requests the progress is min(total, 50·k) |
| BulkDelete.OneHundredTwenty | web/src/App.jsx:287-293 | 120 ports go out as 50, 50 and 20 |
| BulkDelete.Stop | web/src/App.jsx:285-311 | requests are the chunks up to and including the first rejected one; progress starts at 0 and follows min(total, 50·k); success ends at the total |
| Clock.FormatTime | web/src/App.jsx:918-923 | uptime prints as three two-digit fields separated by two colons |
| Clock.ClockSeconds | web/src/App.jsx:918-923 | reading a clock string back needs exactly two colons |
| Clock.ClockRoundTrip | web/src/App.jsx:918-923 | reading a formatted uptime gives back its seconds |
| Inspector.ShownOrder | web/src/App.jsx:184 | the list shows the fetched log newest first |
| Inspector.Selected | web/src/App.jsx:793-795 | the detail pane shows an entry with the picked id, and one whenever such an entry exists |
| Inspector.DisplayResBody | web/src/App.jsx:854-860 | an empty response body is not shown; one of up to 2000 UTF-16 code units is shown whole; a longer one is cut to its first 2000 code units plus the truncation mark |
| Inspector.BmpBodyCutAtCharacters | web/src/App.jsx:860 | a body of Basic Multilingual Plane characters is cut after 2000 characters |
| Inspector.EmojiBodyIsCut | web/src/App.jsx:860 | 1500 emoji, fewer than 2000 characters, are cut after the first 1000 |
| Inspector.ShownOrderInverse | web/src/App.jsx:184 | reversing the shown list gives back the fetched log |
| ClientManager.ServerPort | cmd/tunnelcow-client/manager.go:152-153 | a server port is read only from an address with exactly one colon, as a 64-bit integer |
| ClientManager.ServerPortOfAddress | cmd/tunnelcow-client/manager.go:152-158 | host:port with a colon-free host gives that port |
| ClientManager.ServerPortNeedsOneColon | cmd/tunnelcow-client/manager.go:152-158 | an address without exactly one colon gives no server port |
| ClientManager.AddTunnel | cmd/tunnelcow-client/manager.go:139-190 | a tunnel opens exactly when neither port is the dashboard's, the server's control port or the link's own local port, the public port is free and the link is up; the registry then gains exactly that pair |
| ClientManager.Wrap64 | cmd/tunnelcow-client/manager.go:212 | local port arithmetic wraps like a 64-bit Go int |
| ClientManager.SeriesSpec | cmd/tunnelcow-client/manager.go:209-216 | a range keeps the old tunnels, adds only pairs start+i → localStart+i, and adds every such pair that is admissible |
| ClientManager.SeriesKeepsAll | cmd/tunnelcow-client/manager.go:209-216 | a range never changes an existing tunnel |
| ClientManager.SeriesOnlyAll | cmd/tunnelcow-client/manager.go:209-216 | every new tunnel of a range is one of its pairs |
| ClientManager.SeriesOpensAll | cmd/tunnelcow-client/manager.go:209-216 | every admissible, free pair of a range is opened |
| ClientManager.RangeBounds | cmd/tunnelcow-client/manager.go:193-207 | a range needs exactly one '-' in each string and start ≤ end; its bounds are then non-negative |
| ClientManager.ParseAdd | cmd/tunnelcow-client/manager.go:192-229 | a public string with '-' is a range with those bounds; otherwise both strings must be numbers |
| ClientManager.Apply | cmd/tunnelcow-client/manager.go:209-229 | a range always succeeds and a pair is AddTunnel; neither touches domains or existing tunnels |
| ClientManager.RangeAddsAdmissiblePairs | cmd/tunnelcow-client/manager.go:209-217 | a range reports success and adds exactly its admissible free pairs, ignoring per-item failures |
| ClientManager.RangeLoopIsSeries | cmd/tunnelcow-client/manager.go:209-216 | below the top of the int64 range the loop as written ends with the series of pairs |
| ClientManager.TopCountLoops | cmd/tunnelcow-client/manager.go:209-210 | with count = MaxInt64 the loop as written never reaches its exit |
| ClientManager.FullRangeNeverExits | cmd/tunnelcow-client/manager.go:193-216 | the range "0-9223372036854775807" reads well and its loop never exits, while the corrected range adds its series |
| ClientManager.NoBreakSpaceTrimmed | cmd/tunnelcow-client/manager.go:201-203 | a no-break space in front of a bound is trimmed like an ASCII space |
| ClientManager.RangeBoundsOf | cmd/tunnelcow-client/manager.go:193-207 | "a-b" with "c-…" gives the bounds a, b, c |
| ClientManager.RangeIgnoresLocalEnd | cmd/tunnelcow-client/manager.go:195-203 | the end of the local range has no effect |
| ClientManager.AddDomain | cmd/tunnelcow-client/manager.go:50-77 | a domain maps only onto an active tunnel, and the tunnels stay as they were |
| ClientManager.RemoveDomain | cmd/tunnelcow-client/manager.go:79-97 | removing a domain takes it out, leaving the tunnels, when the link is up |
| ClientManager.RestoredMode | cmd/tunnelcow-client/manager.go:130-132 | an empty saved mode becomes "auto"; any other is kept |
| ClientManager.RestoreDomains | cmd/tunnelcow-client/manager.go:114-137 | restoring domains keeps tunnels and existing domains, never adds an entry with an empty mode and keeps the registry consistent |
| ClientManager.RestoreTunnels | cmd/tunnelcow-client/manager.go:292-314 | a missing or undecodable tunnels file ends the restore before domains are read; otherwise restoring keeps existing tunnels, adds only saved ones, then restores domains, and keeps the registry consistent |
| ClientManager.RestoreDefaultsMode | cmd/tunnelcow-client/manager.go:129-135 | a saved domain without a mode comes back as "auto" |
| ClientManager.Orphans | cmd/tunnelcow-client/manager.go:247-252 | the orphans are exactly the domains pointing at the port |
| ClientManager.RemoveTunnel | cmd/tunnelcow-client/manager.go:232-271 | removing a tunnel deletes it and, with the link up, every domain on it; other tunnels and domains stay |
| ClientManager.RemoveEach | cmd/tunnelcow-client/manager.go:253-259 | each listed domain is removed and nothing else changes |
| ClientManager.RemoveTunnelIsCascade | cmd/tunnelcow-client/manager.go:247-261 | removing a tunnel equals removing its orphans in any order and then the tunnel |
| ClientManager.RemoveKeepsConsistent | cmd/tunnelcow-client/manager.go:247-261 | after a removal no domain points at a missing tunnel |
| ClientManager.LinkDownLeavesDangling | cmd/tunnelcow-client/manager.go:253-258 | with the link down the domain stays behind pointing at the removed tunnel |
| ClientManager.AddThenRemove | cmd/tunnelcow-client/manager.go:184-261 | opening a tunnel and closing it again gives back the registry |
| ClientManager.AddTunnelKeepsConsistent | cmd/tunnelcow-client/manager.go:184 | opening a tunnel keeps every domain on an active tunnel |
| ClientManager.AddDomainKeepsConsistent | cmd/tunnelcow-client/manager.go:54-73 | mapping a domain keeps every domain on an active tunnel |
| ClientManager.OnInspectData | cmd/tunnelcow-client/manager.go:448-468 | a decoded record is appended as the newest, and the log never grows past 100 |
| ClientManager.InspectLogKeepsNewest | cmd/tunnelcow-client/manager.go:462-467 | after any stream of messages the log is the newest 100 decoded records in arrival order |
| ClientApi.Guard | cmd/tunnelcow-client/api.go:48-75 | OPTIONS is answered as a preflight; other requests pass only with a valid session cookie; an expired cookie is dropped from the table |
| ClientApi.GateReply | cmd/tunnelcow-client/api.go:54-72 | a preflight gets an empty 200 and a refused request 401 "Unauthorized" |
| ClientApi.Login | cmd/tunnelcow-client/api.go:77-105 | OPTIONS is answered by the CORS layer (api.go:54-57) with an empty 200 and no session; any other non-POST gets 405, an undecodable body 400, a wrong password 401; the right one creates a session and sets its cookie |
| ClientApi.Logout | cmd/tunnelcow-client/api.go:107-116 | logout answers 200; every method but OPTIONS expires the cookie, while OPTIONS gets the CORS layer's empty reply (api.go:54-57) |
| ClientApi.LogoutKeepsSession | cmd/tunnelcow-client/api.go:92-116 | logout does not remove the session from the table, so the old cookie stays valid |
| ClientApi.PreflightEverywhere | cmd/tunnelcow-client/api.go:43-57 | OPTIONS to login or logout gets the same reply as the session guard gives a protected route, and no session changes |
| ClientApi.StatusSnapshot | cmd/tunnelcow-client/api.go:118-145 | the connected flag, and the manager's tunnels and domains when connected, otherwise both empty (only these three fields are modelled) |
| ClientApi.DecodeAdd | cmd/tunnelcow-client/api.go:156-164 | an add body decodes exactly when the two port fields and the protocol decode as strings, and carries their values |
| ClientApi.UpperCaseAddBody | cmd/tunnelcow-client/api.go:156-164 | keys in upper case fill the fields as the lower-case tags do |
| ClientApi.DecodeDelete | cmd/tunnelcow-client/api.go:173-181 | a delete body decodes exactly when both port fields have integer types |
| ClientApi.RemoveAll | cmd/tunnelcow-client/api.go:185-188 | exactly the listed tunnels go, with their domains when the link is up |
| ClientApi.Delete | cmd/tunnelcow-client/api.go:183-194 | the reported count is the number of targets and the registry loses exactly those tunnels |
| ClientApi.Tunnels | cmd/tunnelcow-client/api.go:147-196 | 503 before anything when not connected; 400 exactly for a bad body; only a 200 changes the registry |
| ClientApi.BatchIgnoresSinglePort | cmd/tunnelcow-client/api.go:184-188 | a non-empty list ignores public_port and reports its length |
| ClientApi.SinglePortDelete | cmd/tunnelcow-client/api.go:189-192 | without a list a positive port is removed with count 1, otherwise nothing with count 0 |
| ClientApi.DuplicateCountsTwice | cmd/tunnelcow-client/api.go:184-188 | a port listed twice counts twice |
| ClientApi.DecodeDomain | cmd/tunnelcow-client/api.go:237-249 | a domain body decodes exactly when its fields have the right types |
| ClientApi.Domains | cmd/tunnelcow-client/api.go:228-271 | 503 before anything when not connected; a mapping or unmapping the manager refuses answers 500 with its error; only a 200 changes the registry |
| ClientApi.DomainNeedsTunnel | cmd/tunnelcow-client/api.go:251-254 | mapping onto a port that has no tunnel fails and changes nothing |
| ClientApi.LocalBase | cmd/tunnelcow-client/api.go:333 | the local base ends in the port, not a slash |
| ClientApi.TargetPath | cmd/tunnelcow-client/api.go:335-347 | a parsed URL gives its path and the query after '?' only when there is one; an unparsable one gets a leading '/' |
| ClientApi.ReplayBody | cmd/tunnelcow-client/api.go:349-352 | a body is resent only when it is non-empty and neither capture placeholder |
| ClientApi.FindTarget | cmd/tunnelcow-client/api.go:285-331 | 405 for non-POST, 400 for a bad body, 404 for an unknown id or a closed tunnel, 503 without a manager; otherwise the first entry with that id |
| ClientApi.Replay | cmd/tunnelcow-client/api.go:285-378 | errors before sending send nothing; a 200 means the request was sent and answered |
| ClientApi.PlaceholderNotReplayed | cmd/tunnelcow-client/api.go:350 | a placeholder body is never sent |
| ClientApi.TargetExamples | cmd/tunnelcow-client/api.go:335-347 | worked examples of the target URL for parsed and unparsed URLs |
| ServerSessions.Get | cmd/tunnelcow-server/sessions.go:28-33 | a port's session is found exactly when it is registered |
| ServerSessions.Register | cmd/tunnelcow-server/sessions.go:16-20 | after registering, the port maps to the session and other ports are unchanged |
| ServerSessions.Unregister | cmd/tunnelcow-server/sessions.go:22-26 | after unregistering the port is absent, other ports are unchanged, an absent port is a no-op |
| ServerSessions.RegisterOverwrites | cmd/tunnelcow-server/sessions.go:16-20 | a second register on a port replaces the first |
| ServerSessions.UnregisterUndoesRegister | cmd/tunnelcow-server/sessions.go:16-26 | unregistering a freshly registered port restores the registry |
| ServerDomains.Add | cmd/tunnelcow-server/domains.go:46-54 | add stores the port, and the mode or "auto" when it is empty; other domains are unchanged |
| ServerDomains.Remove | cmd/tunnelcow-server/domains.go:56-61 | after remove the domain does not exist and other domains are unchanged |
| ServerDomains.Get | cmd/tunnelcow-server/domains.go:63-68 | get finds exactly the stored domains |
| ServerDomains.Exists | cmd/tunnelcow-server/domains.go:70-75 | exists holds exactly when get succeeds |
| ServerDomains.GetPort | cmd/tunnelcow-server/domains.go:77-82 | the port of a stored domain with true, else (0, false) |
| ServerDomains.RemoveIdempotent | cmd/tunnelcow-server/domains.go:56-61 | removing twice equals removing once |
| ServerDomains.AddThenGetPort | cmd/tunnelcow-server/domains.go:46-82 | after add the port is found; after a removal it is (0, false) |
| RateLimiter.Allow | cmd/tunnelcow-server/limiter.go:24-52 | a new address or a window older than 1 s is allowed with count 1; inside the window the count is compared with the limit; other addresses are untouched |
| RateLimiter.WithinWindow | cmd/tunnelcow-server/limiter.go:40-51 | inside one window exactly min(n, limit − count) more requests are allowed |
| RateLimiter.FreshWindow | cmd/tunnelcow-server/limiter.go:31-51 | a new address gets min(n, max(1, limit)) requests in its first second |
| RateLimiter.Cleanup | cmd/tunnelcow-server/limiter.go:54-65 | cleanup drops exactly the addresses idle for more than 10 minutes |
| RateLimiter.CleanupKeepsDecisions | cmd/tunnelcow-server/limiter.go:28-62 | cleanup never changes a later decision |
| ServerControl.Bind | cmd/tunnelcow-server/control.go:71-112 | a bind is ignored for ports outside 1-65535, the control port, a bound port or a failed listen; otherwise the port is listened on and registered |
| ServerControl.Unbind | cmd/tunnelcow-server/control.go:114-138 | an unknown port is a no-op; a known one leaves the listeners and the registry |
| ServerControl.Handle | cmd/tunnelcow-server/control.go:36-69 | a PING is echoed unchanged and nothing else is answered; only the four request types change state |
| ServerControl.HandleKeepsOwned | cmd/tunnelcow-server/control.go:71-138 | every registered port of the session is one of its listeners |
| ServerControl.RepliesArePings | cmd/tunnelcow-server/control.go:41-68 | over a whole session the replies are exactly the pings, in order |
| ServerControl.HandleAllKeepsOwned | cmd/tunnelcow-server/control.go:41-68 | ownership holds across a whole session |
| ServerControl.UnregisterEach | cmd/tunnelcow-server/control.go:213-219 | exactly the listed ports leave the registry |
| ServerControl.Cleanup | cmd/tunnelcow-server/control.go:209-222 | cleanup unregisters every listener and nothing else |
| ServerControl.ServeLeavesNoTrace | cmd/tunnelcow-server/control.go:209-219 | a session that ends leaves no port of its own in the registry, and other ports untouched |
| ServerControl.SessionIdStays | cmd/tunnelcow-server/control.go:36-69 | handling messages never changes the session's identity |
| ServerControl.BindThenUnbind | cmd/tunnelcow-server/control.go:71-138 | binding a free port and unbinding it restores the registry; a local port beyond int64 binds nothing |
| ServerMain.SniffBinary | cmd/tunnelcow-server/main.go:420-430 | data is binary exactly when a zero byte occurs in its first 512 bytes |
| ServerMain.CaptureBody | cmd/tunnelcow-server/main.go:313-333 | empty → ""; over 4096 bytes → the too-large mark; binary → the binary mark; else verbatim |
| ServerMain.CaptureThenReplay | cmd/tunnelcow-server/main.go:313-322 | a replayed captured body is the original one, and only small text bodies are replayed |
| ServerMain.JoinValues | cmd/tunnelcow-server/main.go:288 | one value is itself; the joined text is as long as the values plus two characters per separator |
| ServerMain.JoinHoldsValues | cmd/tunnelcow-server/main.go:288 | each value stands in the joined text at its offset: the values before it plus one separator each |
| ServerMain.JoinHoldsSeparators | cmd/tunnelcow-server/main.go:288 | every value but the last is followed by ", " |
| ServerMain.JoinAppend | cmd/tunnelcow-server/main.go:288 | one more value adds ", " and the value at the end |
| ServerMain.FlattenHeader | cmd/tunnelcow-server/main.go:286-289 | every header name is kept with exactly its values joined; one value stays as it is |
| ServerMain.Capture | cmd/tunnelcow-server/main.go:276-348 | the record carries the request's method, URL, address and flattened headers; a response gives its status and its flattened headers (lines 304-307); no response with an error gives 502 with the error text as the captured body |
| ServerMain.UnreachableIs502 | cmd/tunnelcow-server/main.go:308-311 | an unreachable upstream is recorded as 502 |
| ServerMain.Hex | cmd/tunnelcow-server/main.go:56 | the hex text is two digits per byte |
| ServerMain.HexDigitsAt | cmd/tunnelcow-server/main.go:56 | each byte reads back from its two digits |
| ServerMain.HexDecodes | cmd/tunnelcow-server/main.go:56 | the hex text decodes back to the bytes |
| ServerMain.Resolve | cmd/tunnelcow-server/main.go:47-78 | the token comes from the flag, then the file, else is generated and saved; the port is the flag unless it is the default and the file has one; debug is flag or file |
| ServerMain.GeneratedTokenEncodesRandom | cmd/tunnelcow-server/main.go:52-56 | a generated token is the 32-digit hex of the 16 random bytes |
| ServerMain.GeneratedTokenIgnoresFile | cmd/tunnelcow-server/main.go:59-73 | once a token is generated the file's port and debug no longer count |
| ServerMain.SplitHost | cmd/tunnelcow-server/main.go:132-134 | the host part of host:port or [host]:port, or failure |
| ServerMain.RequestHost | cmd/tunnelcow-server/main.go:131-134 | the routing name is exactly the host that splits off the Host header, or the header unchanged when it does not split |
| ServerMain.HostOfHostPort | cmd/tunnelcow-server/main.go:131-134 | name:port routes by name, and a bare name by itself |
| ServerMain.HostOfBracketed | cmd/tunnelcow-server/main.go:131-134 | [name]:port splits to the name inside the brackets and routes by it |
| ServerMain.ClientIp | cmd/tunnelcow-server/main.go:143 | the limiter counts exactly the host that splits off the remote address, or "" when it does not split |
| ServerMain.Counted | cmd/tunnelcow-server/main.go:142-148 | without a limit the limiter is not consulted; every other client's entry keeps its presence and its value |
| ServerMain.Authenticated | cmd/tunnelcow-server/main.go:155-175 | a domain with a user and no valid cookie gets the login page; otherwise the request is proxied |
| ServerMain.ServeHttps | cmd/tunnelcow-server/main.go:129-176 | unmapped → 404, then the limit → 429, then HTTP-only mode → 403, then login, then proxy |
| ServerMain.RedirectTarget | cmd/tunnelcow-server/main.go:224-227 | https:// + Host + path, and "?" + query only when there is one |
| ServerMain.ServeHttp | cmd/tunnelcow-server/main.go:179-230 | unmapped → 404, then the limit → 429; HTTP-only domains are logged in and proxied, all others redirected |
| ServerMain.LimitBeforeMode | cmd/tunnelcow-server/main.go:142-153 | an HTTP-only domain over its limit gets 429 over HTTPS, not 403 |
| ServerMain.RedirectLeadsToHttps | cmd/tunnelcow-server/main.go:199-229 | a request HTTP redirects is one the HTTPS handler for the same host does not refuse as unmapped or HTTP-only |
| ServerMain.OneSideProxies | cmd/tunnelcow-server/main.go:150-222 | no domain is proxied over both HTTP and HTTPS |
| ServerMain.RedirectKeepsPort | cmd/tunnelcow-server/main.go:180-224 | the redirect keeps the Host header's port while routing ignores it |
| AuthSessions.CreateSession | internal/auth/auth.go:56-66 | a new 44-character token decoding to the random bytes, expiring 24 h from now; others unchanged |
| AuthSessions.ValidateSession | internal/auth/auth.go:68-90 | a cookie is valid exactly when its token is known and not expired; an expired token is deleted |
| AuthSessions.ValidUntilExpiry | internal/auth/auth.go:56-90 | a new session stays valid until its expiry |
| AuthSessions.ExpiredStaysRejected | internal/auth/auth.go:79-87 | after expiry a token is rejected now and later |
| AuthSessions.CheckKeepsOthers | internal/auth/auth.go:68-90 | checking one cookie never touches other tokens |
| AuthSessions.CheckIdempotent | internal/auth/auth.go:68-90 | checking twice gives the same answer and table |
| Base64Url.Encode | internal/auth/auth.go:59 | the encoding has four characters per three bytes, rounded up |
| Base64Url.DecodeEncode | internal/auth/auth.go:57-59 | decoding an encoding gives back the bytes |
| Base64Url.TokenLength | internal/auth/auth.go:57-59 | 32 bytes encode to 44 characters ending in one '=' |
| Base64Url.EncodeAlphabet | internal/auth/auth.go:59 | an encoding uses only the URL-safe alphabet and '=' |
| UiLogger.NewBuffer | internal/ui/logger.go:30-35 | a new log is empty with the given capacity |
| UiLogger.FirstEntry | internal/ui/logger.go:30-54 | the first message into a new log panics exactly when its capacity is 0, and is otherwise its only entry |
| UiLogger.Printf | internal/ui/logger.go:37-54 | a message is appended as the newest entry, the oldest dropped at capacity; a zero-capacity empty log panics |
| UiLogger.PrintAllKeepsNewest | internal/ui/logger.go:49-53 | after any messages the log holds exactly the newest entries, in order |
| UiLogger.Line | internal/ui/logger.go:84-90 | a line is the time, a space, the level prefix and the message |
| UiLogger.Shown | internal/ui/logger.go:79-82 | debug entries are hidden unless asked for; nothing else is dropped |
| UiLogger.Lines | internal/ui/logger.go:79-92 | one line per shown entry, in order |
| UiLogger.GetLines | internal/ui/logger.go:72-99 | a positive limit keeps the last min(n, limit) lines; no limit keeps all |
| UiLogger.ShownKeepsInfo | internal/ui/logger.go:80-82 | an INFO entry is always shown |
| UiLogger.TailEndsWithNewest | internal/ui/logger.go:94-98 | the last line returned is that of the newest shown entry |
| UiInput.ReadKey | internal/ui/input.go:11-42 | an arrow sequence gives its name, Ctrl-C first exits, a failed read fails, anything else is the raw text |
| UiInput.TypedUpIsArrow | internal/ui/input.go:24-41 | typing the letters "UP" reads the same as the up arrow |
| UiInput.SelectStep | internal/ui/input.go:65-77 | UP moves up unless at the top, DOWN down unless at the bottom, Enter chooses, other keys change nothing |
| UiInput.SelectStaysInRange | internal/ui/input.go:66-74 | the highlighted index stays within the menu |
| UiInput.DownThenEnter | internal/ui/input.go:71-76 | n DOWN presses and Enter choose min(index + n, last) |
| UiInput.EditStep | internal/ui/input.go:121-153 | Enter ends, Backspace drops the last character, printable bytes are added under 50, others are ignored |
| UiInput.EditKeepsLineValid | internal/ui/input.go:142-151 | the line is at most 50 printable ASCII characters |
| UiInput.TypeThenEnter | internal/ui/input.go:130-151 | typing a line that fits and Enter enters exactly it |
| UiInput.TypeThenErase | internal/ui/input.go:134-151 | a character followed by Backspace leaves the line as it was |
| UiBox.StripAnsi | internal/ui/box.go:23-27 | escape sequences are removed, text is kept |
| UiBox.StripSgr | internal/ui/box.go:23-27 | a colour sequence in front of text disappears |
| UiBox.StripPlain | internal/ui/box.go:23-27 | text without escapes is unchanged |
| UiBox.ColouredText | internal/ui/box.go:23-27 | coloured plain text strips to the text |
| UiBox.TextThenSgr | internal/ui/box.go:23-27 | a colour sequence after text disappears |
| UiBox.StripIsOnePass | internal/ui/box.go:23-27 | one pass can leave a new sequence behind |
| UiBox.StripSgrAlone | internal/ui/box.go:23-27 | a second pass removes what the first left |
| UiBox.ContentRow | internal/ui/box.go:45-51 | a line whose visible bytes fit is padded to the width in bytes, so it shows one column fewer per UTF-8 continuation byte; a longer one is cut to width − 4 bytes plus "..." |
| UiBox.DrawBox | internal/ui/box.go:33-55 | the box panics exactly when the title has at least width − 4 bytes; otherwise the borders are width bytes, and the top border shows one column fewer per continuation byte of the title |
| UiBox.FittingRowsFill | internal/ui/box.go:45-51 | a fitting row is width bytes, and shows exactly width columns only when its text has no multi-byte rune |
| UiBox.CheckMarkRowShort | internal/ui/box.go:45-51 | a fitting row of "✓" and ASCII text shows two columns fewer than the box; the corrected row fills it |
| UiBox.CenteredCheckMarkRow | internal/ui/box.go:65-93 | in the 60-wide centred box such a row shows 58 columns |
| UiBox.ConfigurationSavedRow | cmd/tunnelcow-client/main.go:113-118 | the "✓ Configuration Saved" row shows 58 of 60 columns |
| UiBox.TitleAtLimitPanics | internal/ui/box.go:35-41 | a 15-byte title panics in a 19-column box |
| UiBox.LongLineOverflows | internal/ui/box.go:45-50 | a long plain line is width + 3 bytes, and shows width + 3 columns less one per continuation byte kept |
| UiBox.TakeColumns | internal/ui/box.go:45-50 | the corrected cut keeps at most n columns and never ends inside a rune |
| UiBox.ContentRowFixed | internal/ui/box.go:45-51 | the corrected row pads by display columns, so a fitting row shows exactly the width; a long plain line keeps width − 7 columns so that "..." ends at the border |
| UiBox.DrawBoxFixed | internal/ui/box.go:33-55 | with the title cut to width − 5 columns and the dashes counted in columns, only a box narrower than 5 columns fails, and the top border shows exactly the width |
| UiBox.FixedAgreesWhereDrawn | internal/ui/box.go:33-55 | wherever the original draws, the corrected box keeps the title and fitting lines, and adds one dash or space per continuation byte |
| UiBox.FixedRowsFill | internal/ui/box.go:45-51 | in the corrected box every plain row, and every row that fits in columns, shows exactly the box's width |
| UiBox.CenteredBox | internal/ui/box.go:65-93 | 60 columns, or the terminal less 4 when narrower, centred by half the spare columns |
| UiBox.EightyColumns | internal/ui/box.go:65-80 | on 80 columns the box sits 10 in and fits titles up to 55 bytes |
| Protocol.FirstWithId | cmd/tunnelcow-client/api.go:299-309 | the index of the first entry with the id, or none when no entry has it |
| Protocol.IntField | cmd/tunnelcow-client/api.go:173-181 | a missing field or a null body decodes as 0, any other non-object body fails, and a single int64 value is the field's value |
| Protocol.StrField | cmd/tunnelcow-client/api.go:156-164 | a missing field or a null body decodes as "", any other non-object body fails, and a single string is the field's value |
| Protocol.KeyMatchesAnyCase | cmd/tunnelcow-client/api.go:156-164 | a field's tag matches its own and its upper-case spelling |
| Protocol.FoldedRunesMatch | cmd/tunnelcow-client/api.go:156-164 | long s and the Kelvin sign match the letters s and k of a tag |
| Protocol.OtherKeyIgnored | cmd/tunnelcow-client/api.go:173-181 | a member whose key does not name the field leaves it as it was |
| Protocol.LastKeyWins | cmd/tunnelcow-client/api.go:173-181 | of several members naming a field the last one decides, unless an earlier one failed |
| Protocol.BindPayload | cmd/tunnelcow-server/control.go:71-80 | the REQ_BIND payload decodes to its two ports when they fit in an int64 |
| Protocol.UnbindPayload | cmd/tunnelcow-server/control.go:114-120 | the REQ_UNBIND payload decodes to its port when it fits in an int64 |

## Left out

- Network plumbing is not modelled: sockets, yamux streams, stream piping, the reverse proxy, autocert/TLS and HTTP serving. Whether a listen, a fetch or a send succeeded is a parameter.
- Crypto is not modelled:
  - bcrypt password checks are a `verify` parameter;
  - the random bytes behind tokens are a parameter;
  - the HMAC login cookies of the server's domain login are a `cookieValid` parameter;
  - the login page itself is left out.
- File persistence is not modelled: saving and loading tunnels, domains and configuration. What a read gives is a parameter. The server's configuration is its decoded contents, or Go's zero value. The client's saved tunnels and domains are an `Option`: `None` stands for a file that is missing or does not decode, and for the tunnels it ends the restore before domains are read.
- Concurrency is not modelled: mutexes, goroutines, the read lock held while `AddDomain` writes, and overlapping status fetches. Every operation is one atomic step.
- Floating point is not modelled: `formatBytes` and the bulk progress percentage. Rates are exact `real`s.
- Rendering is not modelled: JSX markup, terminal raw mode, printing, the input box drawn by `Input`, and the screen clearing of `Select`.
- The clocks are not modelled: `time.Now`, `Date.now` and elapsed time are integer parameters. Log times are printed as the time of day of those integer seconds; the time zone is not modelled.
- `handleTunnelsEdit` (cmd/tunnelcow-client/api.go:198-226) is left out. The `EditTunnel` it calls is not part of this model.
- `handleInspect` is left out. It serialises the inspection log, which `ClientManager.OnInspectData` models.
- The stream handler, the latency measurement and the ping loop of the control link are left out. They are timing and network code.
- Some call sites and definitions disagree:
  - The 7-argument calls of `AddDomain` (api.go:251) and of `serverDomains.Add` (control.go:146) are modelled by the 3-argument definitions in manager.go and domains.go.
  - The rate-limit and login fields that main.go reads are added to a route entry of its own, `ServerMain.RouteEntry`.
- `sendInspectData` and the server's token handshake are left out. They write to the network.
- `UiLogger.GetLines`: a timestamp is printed as the time of day of its integer seconds. The time zone is not modelled.
- `RateLimiter.AllowAll` is only a counting helper for the window lemmas.
- `Base64Url`: only the encoding direction used to make tokens is part of the system; the decoder exists to state the round trip.
- Clock.ClockSeconds: the page never parses a clock string; this inverse of the formatter exists to state `ClockRoundTrip`.
- ClientApi.StatusSnapshot: only `connected`, `tunnels` and `domains` are modelled. `server_addr`, `dashboard_port`, `stats` and `uptime` (api.go:135-143) are configuration, traffic counters and the clock.
- UiBox.Columns: every rune is taken to be one column wide. Wide East Asian characters and emoji take two columns in a terminal, and combining marks none; no title or line the program draws holds one.

## Findings

| source | as written | input that shows it | evidently intended | confidence | as-written member | corrected member |
|---|---|---|---|---|---|---|
| internal/ui/box.go:35-41 | a title of width − 4 bytes or more is cut to width − 4, then the top border repeats the dash width − len(title) − 5 times, which is −1, so `strings.Repeat` panics | a 15-byte title such as "TunnelCow Setup" in a box 19 columns wide | cut the title to width − 5 bytes so the border takes no negative count | not executed | UiBox.TitleAtLimitPanics | UiBox.DrawBoxFixed |
| cmd/tunnelcow-client/manager.go:209-216 | the loop `for i := 0; i <= count; i++` runs over int64, so when count is MaxInt64 the guard is always true and i wraps to MinInt64 | public range "0-9223372036854775807" with local "0-0" | stop after count + 1 pairs, for instance by looping on p from pStart to pEnd with an exit test before the increment | not executed | ClientManager.FullRangeNeverExits | ClientManager.RangeAddsAdmissiblePairs |
| internal/ui/box.go:45-50 | a line wider than the box is cut to width − 4 bytes and "..." is appended with no padding, so the row is width + 3 columns for an ASCII line | a 60-character plain line in a 60-column box | cut to width − 7 bytes so that "..." ends at the border | not executed | UiBox.LongLineOverflows | UiBox.FixedRowsFill |
| internal/ui/box.go:45-51 | a fitting line is padded by `len(stripAnsi(line))`, its byte count, so a line with multi-byte runes shows one column fewer per UTF-8 continuation byte (box.go:83-89 does the same) | "✓ Configuration Saved" (cmd/tunnelcow-client/main.go:115) in the 60-wide centred box shows 58 of 60 columns; "✓ Password Updated Securely" (setup.go:43) likewise | pad by the columns the text shows, e.g. its rune count | not executed | UiBox.ConfigurationSavedRow | UiBox.FixedRowsFill |
