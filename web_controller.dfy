/**
 * The GodiController of the web client (web/client/app/js/controllers.js).
 *
 * The controller mirrors the server's state object and keeps four pieces of
 * scope state: the read-only latch `stateReadOnly`, the status flags
 * `isUpdating` and `updateFailed`, and the push connection `$socket`.
 * Everything it does happens in callbacks: completions of the DEFAULTS, GET
 * and PUT requests, completions of the push-triggered re-fetch, inbound push
 * messages, and the `$watchCollection` listener. Each callback is an event
 * here. The pure function `Step` says what one event does to a snapshot of
 * the scope; the class `GodiController` performs the same updates in place
 * and is proved against `Step`; the lemmas quantify over every event order.
 */
module Web {
  import opened Wrappers
  import Text

  /** The state object's fields, as the server sends them (opaque to the controller). */
  type Payload = map<string, string>

  /** Response headers, keyed by lower-case name, as $http's header getter looks them up. */
  type Header = map<string, string>

  /** A value produced by angular.fromJson. */
  datatype Json =
    | JNull
    | JBool(b: bool)
    | JNum(x: real)
    | JStr(str: string)
    | JArr(items: seq<Json>)
    | JObj(fields: map<string, Json>)

  /** The outcome of parsing a push message: angular.fromJson throws on malformed text. */
  datatype Parsed = Unparsable | Parsed(value: Json)

  /** WebSocket readyState values. */
  const CONNECTING := 0
  const OPEN := 1
  const CLOSING := 2
  const CLOSED := 3

  /** A push connection: the address it was opened to and its current readyState. */
  datatype Conn = Conn(url: string, readyState: int)

  /** The requests the controller issues against /api/v1/state. */
  datatype Request =
    | DefaultsReq          // State.defaults at startup (verb DEFAULTS)
    | GetReq               // State.get at startup, completed by firstStateHandler
    | PutReq(body: Payload) // nval.$update from the watch listener
    | RefetchReq           // $scope.state.$get from the push listener

  /** The page location ($location.host() and $location.port()). */
  datatype Location = Location(host: string, port: nat)

  /** A snapshot of the controller's scope. */
  datatype Scope = Scope(
    stateReadOnly: bool,
    isUpdating: bool,
    updateFailed: bool,
    socket: Option<Conn>,
    state: Payload,
    defaults: Payload,    // $scope.default, the reply to State.defaults
    inFlight: multiset<Request>)

  /** Everything that can happen to the controller. */
  datatype Event =
    | Succeeded(req: Request, payload: Payload, header: Header)
    | Failed(req: Request)
    | Message(data: Parsed)           // an inbound push message
    | Edit(newState: Payload)         // a local caller changes the state object
    | Observed                        // the $watchCollection listener fires
    | ReadyStateChanged(readyState: int)

  /** The header `x-is-rw` is present and equals the string "true". */
  predicate GrantsWrite(h: Header) {
    "x-is-rw" in h && h["x-is-rw"] == "true"
  }

  /** `state.socketURL` as string concatenation sees it: a missing field reads "undefined". */
  function SocketURL(p: Payload): string {
    if "socketURL" in p then p["socketURL"] else "undefined"
  }

  /** "ws://" + host + ':' + port + socketURL */
  function SocketAddress(loc: Location, url: string): string {
    "ws://" + loc.host + ":" + Text.Decimal(loc.port) + url
  }

  /** The scope right after the controller function has run. */
  function Init(): (s: Scope)
    ensures s.stateReadOnly && s.isUpdating && !s.updateFailed
    ensures s.socket.None? && s.state == map[]
    ensures s.inFlight == multiset{DefaultsReq, GetReq}
  {
    var blank := Scope(false, false, false, None, map[], map[], multiset{});
    AfterUpdateDone(blank, None).(stateReadOnly := true, isUpdating := true,
                                  inFlight := multiset{DefaultsReq, GetReq})
  }

  /** updateReadOnly: the latch only ever goes from true to false. */
  function AfterUpdateReadOnly(s: Scope, h: Header): (t: Scope)
    ensures t.stateReadOnly <==> s.stateReadOnly && !GrantsWrite(h)
    ensures t == s.(stateReadOnly := t.stateReadOnly)
    ensures t.isUpdating == s.isUpdating && t.updateFailed == s.updateFailed
    ensures t.inFlight == s.inFlight && t.socket == s.socket
  {
    if s.stateReadOnly && GrantsWrite(h) then s.(stateReadOnly := false) else s
  }

  /** updateDone: both status flags cleared; the header is consulted only when supplied. */
  function AfterUpdateDone(s: Scope, h: Option<Header>): (t: Scope)
    ensures !t.isUpdating && !t.updateFailed
    ensures t.stateReadOnly <==> s.stateReadOnly && !(h.Some? && GrantsWrite(h.value))
    ensures t == s.(isUpdating := false, updateFailed := false, stateReadOnly := t.stateReadOnly)
    ensures t.inFlight == s.inFlight && t.socket == s.socket
  {
    var t := s.(isUpdating := false, updateFailed := false);
    if h.Some? then AfterUpdateReadOnly(t, h.value) else t
  }

  /** The condition under which firstStateHandler opens a connection. */
  predicate NeedsSocket(s: Scope) {
    s.socket.None? || s.socket.value.readyState != OPEN
  }

  /** firstStateHandler, with the GET payload already copied into `s.state`. */
  function AfterFirstState(s: Scope, loc: Location, h: Header): (t: Scope)
    ensures NeedsSocket(s) ==> t.socket == Some(Conn(SocketAddress(loc, SocketURL(s.state)), CONNECTING))
    ensures !NeedsSocket(s) ==> t.socket == s.socket
    ensures t.(socket := s.socket) == AfterUpdateDone(s, Some(h))
    ensures t.inFlight == s.inFlight
  {
    var t := AfterUpdateDone(s, Some(h));
    if NeedsSocket(s) then t.(socket := Some(Conn(SocketAddress(loc, SocketURL(t.state)), CONNECTING)))
    else t
  }

  /** JavaScript truthiness of a parsed value. */
  predicate Truthy(d: Json) {
    match d
    case JNull => false
    case JBool(b) => b
    case JNum(x) => x != 0.0
    case JStr(str) => str != ""
    case _ => true
  }

  /** `d.state === 0`: only an object has a `state` property. */
  predicate StateIsZero(d: Json) {
    match d
    case JObj(f) => "state" in f && f["state"] == JNum(0.0)
    case _ => false
  }

  /** The push listener's test: parsed, truthy, and `state === 0`. */
  predicate RefetchesOn(p: Parsed) {
    p.Parsed? && Truthy(p.value) && StateIsZero(p.value)
  }

  /** conn.onmessage: a state-change notice issues one re-fetch; anything else is ignored. */
  function AfterMessage(s: Scope, p: Parsed): Scope {
    if RefetchesOn(p) then s.(inFlight := s.inFlight + multiset{RefetchReq}) else s
  }

  /** An event the environment can deliver: only issued requests complete, and
      only an existing connection receives messages or changes readyState. */
  predicate Delivered(s: Scope, e: Event) {
    match e
    case Succeeded(r, _, _) => r in s.inFlight
    case Failed(r) => r in s.inFlight
    case Message(_) => s.socket.Some?
    case ReadyStateChanged(_) => s.socket.Some?
    case _ => true
  }

  /** The success callback of request `r`, run on the reply payload `p` and header `h`.
      It retires the request; only the startup GET may open a connection; every
      callback updates the latch; all but the push fetch clear the status flags. */
  function Completed(s: Scope, loc: Location, r: Request, p: Payload, h: Header): (t: Scope)
    ensures t.inFlight == s.inFlight - multiset{r}
    ensures !r.GetReq? ==> t.socket == s.socket
    ensures r.GetReq? && NeedsSocket(s) ==> t.socket == Some(Conn(SocketAddress(loc, SocketURL(p)), CONNECTING))
    ensures r.GetReq? && !NeedsSocket(s) ==> t.socket == s.socket
    ensures t.stateReadOnly <==> s.stateReadOnly && !GrantsWrite(h)
    ensures !r.RefetchReq? ==> !t.isUpdating && !t.updateFailed
    ensures r.RefetchReq? ==> t.isUpdating == s.isUpdating && t.updateFailed == s.updateFailed
    ensures t.state == (if r.DefaultsReq? then s.state else p)
    ensures t.defaults == (if r.DefaultsReq? then p else s.defaults)
  {
    var retired := s.inFlight - multiset{r};
    match r
    case DefaultsReq => AfterUpdateDone(s.(inFlight := retired, defaults := p), Some(h))
    case GetReq => AfterFirstState(s.(inFlight := retired, state := p), loc, h)
    case PutReq(_) => AfterUpdateDone(s.(inFlight := retired, state := p), Some(h))
    case RefetchReq => AfterUpdateReadOnly(s.(inFlight := retired, state := p), h)
  }

  /** What one event does to the scope (an undeliverable event changes nothing). */
  function Step(s: Scope, loc: Location, e: Event): Scope {
    if !Delivered(s, e) then s
    else match e
      case Succeeded(r, p, h) => Completed(s, loc, r, p, h)
      case Failed(r) =>
        var s' := s.(inFlight := s.inFlight - multiset{r});
        if r.RefetchReq? then s' else s'.(updateFailed := true)
      case Message(p) => AfterMessage(s, p)
      case Edit(p) => s.(state := p)
      case Observed => s.(inFlight := s.inFlight + multiset{PutReq(s.state)})
      case ReadyStateChanged(rs) => s.(socket := Some(s.socket.value.(readyState := rs)))
  }

  /** The scope after a sequence of events, in order. */
  function Run(s: Scope, loc: Location, es: seq<Event>): Scope
    decreases |es|
  {
    if es == [] then s else Run(Step(s, loc, es[0]), loc, es[1..])
  }

  /** The in-place controller. */
  class GodiController {
    const loc: Location
    var stateReadOnly: bool
    var isUpdating: bool
    var updateFailed: bool
    var socket: Option<Conn>
    var state: Payload
    var defaults: Payload   // $scope.default
    var inFlight: multiset<Request>

    function Snapshot(): Scope
      reads this
    {
      Scope(stateReadOnly, isUpdating, updateFailed, socket, state, defaults, inFlight)
    }

    /** NewGodiController: init the flags, then fire DEFAULTS and GET. */
    constructor (loc: Location)
      ensures this.loc == loc
      ensures Snapshot() == Init()
    {
      this.loc := loc;
      stateReadOnly, isUpdating, updateFailed := false, false, false;
      socket, state, defaults, inFlight := None, map[], map[], multiset{};
      new;
      UpdateDone(None);
      stateReadOnly := true;
      isUpdating := true;
      inFlight := inFlight + multiset{DefaultsReq};
      inFlight := inFlight + multiset{GetReq};
    }

    method UpdateReadOnly(h: Header)
      modifies this
      ensures stateReadOnly ==> old(stateReadOnly)
      ensures Snapshot() == AfterUpdateReadOnly(old(Snapshot()), h)
    {
      if stateReadOnly && GrantsWrite(h) {
        stateReadOnly := false;
      }
    }

    method UpdateDone(h: Option<Header>)
      modifies this
      ensures !isUpdating && !updateFailed
      ensures Snapshot() == AfterUpdateDone(old(Snapshot()), h)
    {
      isUpdating := false;
      updateFailed := false;
      if h.Some? {
        UpdateReadOnly(h.value);
      }
    }

    method UpdateFailed()
      modifies this
      ensures Snapshot() == old(Snapshot()).(updateFailed := true)
    {
      updateFailed := true;
    }

    method FirstStateHandler(h: Header)
      modifies this
      ensures Snapshot() == AfterFirstState(old(Snapshot()), loc, h)
    {
      UpdateDone(Some(h));
      if socket.None? || socket.value.readyState != OPEN {
        socket := Some(Conn(SocketAddress(loc, SocketURL(state)), CONNECTING));
      }
    }

    method DefaultsSucceeded(p: Payload, h: Header)
      requires DefaultsReq in inFlight
      modifies this
      ensures Snapshot() == Step(old(Snapshot()), loc, Succeeded(DefaultsReq, p, h))
    {
      inFlight := inFlight - multiset{DefaultsReq};
      defaults := p;
      UpdateDone(Some(h));
    }

    method GetSucceeded(p: Payload, h: Header)
      requires GetReq in inFlight
      modifies this
      ensures Snapshot() == Step(old(Snapshot()), loc, Succeeded(GetReq, p, h))
    {
      ghost var s0 := Snapshot();
      inFlight := inFlight - multiset{GetReq};
      state := p;
      ghost var s1 := Snapshot();
      assert s1 == s0.(inFlight := s0.inFlight - multiset{GetReq}).(state := p);
      FirstStateHandler(h);
      assert Snapshot() == AfterFirstState(s1, loc, h);
    }

    method PutSucceeded(body: Payload, p: Payload, h: Header)
      requires PutReq(body) in inFlight
      modifies this
      ensures Snapshot() == Step(old(Snapshot()), loc, Succeeded(PutReq(body), p, h))
    {
      inFlight := inFlight - multiset{PutReq(body)};
      state := p;
      UpdateDone(Some(h));
    }

    /** The push-triggered fetch's success callback runs only updateReadOnly. */
    method RefetchSucceeded(p: Payload, h: Header)
      requires RefetchReq in inFlight
      modifies this
      ensures Snapshot() == Step(old(Snapshot()), loc, Succeeded(RefetchReq, p, h))
    {
      inFlight := inFlight - multiset{RefetchReq};
      state := p;
      UpdateReadOnly(h);
    }

    /** DEFAULTS, GET and PUT pass updateFailed as their failure callback. */
    method RequestFailed(r: Request)
      requires r in inFlight && !r.RefetchReq?
      modifies this
      ensures Snapshot() == Step(old(Snapshot()), loc, Failed(r))
    {
      inFlight := inFlight - multiset{r};
      UpdateFailed();
    }

    /** The push-triggered fetch has no failure callback. */
    method RefetchFailed()
      requires RefetchReq in inFlight
      modifies this
      ensures Snapshot() == Step(old(Snapshot()), loc, Failed(RefetchReq))
    {
      inFlight := inFlight - multiset{RefetchReq};
    }

    method OnMessage(p: Parsed)
      requires socket.Some?
      modifies this
      ensures Snapshot() == Step(old(Snapshot()), loc, Message(p))
    {
      if p.Parsed? {
        var d := p.value;
        if Truthy(d) {
          if StateIsZero(d) {
            inFlight := inFlight + multiset{RefetchReq};
          }
        }
      }
    }

    method EditState(p: Payload)
      modifies this
      ensures Snapshot() == Step(old(Snapshot()), loc, Edit(p))
    {
      state := p;
    }

    /** The $watchCollection listener: put the whole state object. */
    method WatchListener()
      modifies this
      ensures Snapshot() == Step(old(Snapshot()), loc, Observed)
    {
      inFlight := inFlight + multiset{PutReq(state)};
    }

    method SocketReadyStateChanged(rs: int)
      requires socket.Some?
      modifies this
      ensures Snapshot() == Step(old(Snapshot()), loc, ReadyStateChanged(rs))
    {
      socket := Some(socket.value.(readyState := rs));
    }

    /** Dispatch one event to its callback. */
    method Handle(e: Event)
      modifies this
      ensures Snapshot() == Step(old(Snapshot()), loc, e)
    {
      if !Delivered(Snapshot(), e) {
        return;
      }
      match e
      case Succeeded(r, p, h) =>
        match r {
          case DefaultsReq => DefaultsSucceeded(p, h);
          case GetReq => GetSucceeded(p, h);
          case PutReq(b) => PutSucceeded(b, p, h);
          case RefetchReq => RefetchSucceeded(p, h);
        }
      case Failed(r) =>
        if r.RefetchReq? { RefetchFailed(); } else { RequestFailed(r); }
      case Message(p) => OnMessage(p);
      case Edit(p) => EditState(p);
      case Observed => WatchListener();
      case ReadyStateChanged(rs) => SocketReadyStateChanged(rs);
    }

    /** Deliver a whole sequence of events, in order. */
    method HandleAll(es: seq<Event>)
      modifies this
      ensures Snapshot() == Run(old(Snapshot()), loc, es)
    {
      var i := 0;
      while i < |es|
        invariant 0 <= i <= |es|
        invariant Run(old(Snapshot()), loc, es) == Run(Snapshot(), loc, es[i..])
      {
        assert es[i..][0] == es[i] && es[i..][1..] == es[i + 1..];
        Handle(es[i]);
        i := i + 1;
      }
    }
  }

  // ---------------------------------------------------------------------------
  // Properties over arbitrary event orders
  // ---------------------------------------------------------------------------

  /** Two event sequences delivered back to back. */
  lemma {:induction false} RunAppend(s: Scope, loc: Location, es: seq<Event>, fs: seq<Event>)
    decreases |es|
    ensures Run(s, loc, es + fs) == Run(Run(s, loc, es), loc, fs)
  {
    if es == [] {
      assert es + fs == fs;
    } else {
      assert (es + fs)[0] == es[0] && (es + fs)[1..] == es[1..] + fs;
      RunAppend(Step(s, loc, es[0]), loc, es[1..], fs);
    }
  }

  /** Running a non-empty sequence is one step followed by the rest. */
  lemma RunCons(s: Scope, loc: Location, e: Event, es: seq<Event>)
    ensures Run(s, loc, [e] + es) == Run(Step(s, loc, e), loc, es)
  {
    assert ([e] + es)[1..] == es;
  }

  /** One event never closes the read-only latch again, and it opens it only
      through a delivered success whose header grants write access. */
  lemma ReadOnlyStep(s: Scope, loc: Location, e: Event)
    ensures Step(s, loc, e).stateReadOnly ==> s.stateReadOnly
    ensures s.stateReadOnly && !Step(s, loc, e).stateReadOnly ==>
              Delivered(s, e) && e.Succeeded? && GrantsWrite(e.header)
  {
  }

  /** The latch is monotone over a whole sequence of events. */
  lemma {:induction false} ReadOnlyRun(s: Scope, loc: Location, es: seq<Event>)
    decreases |es|
    ensures Run(s, loc, es).stateReadOnly ==> s.stateReadOnly
  {
    if es != [] {
      ReadOnlyStep(s, loc, es[0]);
      ReadOnlyRun(Step(s, loc, es[0]), loc, es[1..]);
    }
  }

  /** Along any trace, once stateReadOnly is false it stays false. */
  lemma ReadOnlyLatch(s: Scope, loc: Location, es: seq<Event>, i: nat, j: nat)
    requires i <= j <= |es|
    ensures Run(s, loc, es[..j]).stateReadOnly ==> Run(s, loc, es[..i]).stateReadOnly
  {
    assert es[..j] == es[..i] + es[i..j];
    RunAppend(s, loc, es[..i], es[i..j]);
    ReadOnlyRun(Run(s, loc, es[..i]), loc, es[i..j]);
  }

  /** No callback sets isUpdating: only the controller function does. */
  lemma {:induction false} UpdatingRun(s: Scope, loc: Location, es: seq<Event>)
    decreases |es|
    ensures Run(s, loc, es).isUpdating ==> s.isUpdating
  {
    if es != [] {
      UpdatingRun(Step(s, loc, es[0]), loc, es[1..]);
    }
  }

  /** A completed DEFAULTS, GET or PUT clears both status flags, whatever they were. */
  lemma SuccessClearsStatus(s: Scope, loc: Location, r: Request, p: Payload, h: Header)
    requires r in s.inFlight && !r.RefetchReq?
    ensures !Step(s, loc, Succeeded(r, p, h)).isUpdating
    ensures !Step(s, loc, Succeeded(r, p, h)).updateFailed
  {
  }

  /** The push-triggered fetch's success runs only updateReadOnly: the status
      flags and the connection stay as they were. */
  lemma RefetchSuccessOnlyReadOnly(s: Scope, loc: Location, p: Payload, h: Header)
    requires RefetchReq in s.inFlight
    ensures Step(s, loc, Succeeded(RefetchReq, p, h)) ==
            s.(inFlight := s.inFlight - multiset{RefetchReq}, state := p,
               stateReadOnly := s.stateReadOnly && !GrantsWrite(h))
  {
  }

  /** A failure sets updateFailed and changes nothing else; the push fetch has
      no failure callback at all. isUpdating is not cleared. */
  lemma FailureFrame(s: Scope, loc: Location, r: Request)
    requires r in s.inFlight
    ensures Step(s, loc, Failed(r)) ==
            s.(inFlight := s.inFlight - multiset{r}, updateFailed := s.updateFailed || !r.RefetchReq?)
  {
  }

  /** A failed startup GET leaves the controller "updating" and "failed" at once. */
  lemma StartupFailureKeepsUpdating(loc: Location)
    ensures Step(Init(), loc, Failed(GetReq)).isUpdating
    ensures Step(Init(), loc, Failed(GetReq)).updateFailed
  {
  }

  /** A push message issues exactly one re-fetch when it parses to an object
      whose `state` is the number 0, and no request otherwise. */
  lemma MessageFetch(s: Scope, loc: Location, p: Parsed)
    requires s.socket.Some?
    ensures var isStateChange := p.Parsed? && p.value.JObj? && "state" in p.value.fields
                                 && p.value.fields["state"] == JNum(0.0);
            Step(s, loc, Message(p)) ==
            s.(inFlight := s.inFlight + if isStateChange then multiset{RefetchReq} else multiset{})
  {
  }

  /** The watch listener issues one PUT of the current state and does nothing else. */
  lemma WriteThrough(s: Scope, loc: Location)
    ensures Step(s, loc, Observed) == s.(inFlight := s.inFlight + multiset{PutReq(s.state)})
  {
  }

  /** The states the watch listener fires on over a run: the state at each `Observed`. */
  ghost function ObservedStates(s: Scope, loc: Location, es: seq<Event>): set<Payload>
    decreases |es|
  {
    if es == [] then {}
    else (if es[0].Observed? then {s.state} else {}) + ObservedStates(Step(s, loc, es[0]), loc, es[1..])
  }

  /** Only the watch listener issues a PUT, and its body is the current state. */
  lemma PutStep(s: Scope, loc: Location, e: Event, b: Payload)
    ensures PutReq(b) in Step(s, loc, e).inFlight ==> PutReq(b) in s.inFlight || (e.Observed? && b == s.state)
  {
    if Delivered(s, e) && e.Succeeded? {
      assert Step(s, loc, e).inFlight == s.inFlight - multiset{e.req};
    }
  }

  /** Every PUT in flight after a run was in flight before it, or carries the
      state seen at one of the run's `Observed` events; and every `Observed`
      event leaves a PUT of the state it saw in flight. */
  lemma {:induction false} PutsFromObserved(s: Scope, loc: Location, es: seq<Event>)
    decreases |es|
    ensures forall b :: PutReq(b) in Run(s, loc, es).inFlight ==>
              PutReq(b) in s.inFlight || b in ObservedStates(s, loc, es)
    ensures forall i :: 0 <= i < |es| && es[i].Observed? ==>
              PutReq(Run(s, loc, es[..i]).state) in Run(s, loc, es[..i + 1]).inFlight
  {
    if es != [] {
      var t := Step(s, loc, es[0]);
      PutsFromObserved(t, loc, es[1..]);
      forall b | PutReq(b) in Run(s, loc, es).inFlight
        ensures PutReq(b) in s.inFlight || b in ObservedStates(s, loc, es)
      {
        PutStep(s, loc, es[0], b);
      }
    }
    forall i | 0 <= i < |es| && es[i].Observed?
      ensures PutReq(Run(s, loc, es[..i]).state) in Run(s, loc, es[..i + 1]).inFlight
    {
      RunAppend(s, loc, es[..i], [es[i]]);
      assert es[..i + 1] == es[..i] + [es[i]];
      WriteThrough(Run(s, loc, es[..i]), loc);
    }
  }

  /** A PUT's completion, either way, never touches the connection. */
  lemma PutCompletionKeepsSocket(s: Scope, loc: Location, b: Payload, p: Payload, h: Header)
    ensures Step(s, loc, Succeeded(PutReq(b), p, h)).socket == s.socket
    ensures Step(s, loc, Failed(PutReq(b))).socket == s.socket
  {
  }

  /** The startup GET opens the connection at ws://host:port + socketURL of its payload. */
  lemma GetOpensSocket(s: Scope, loc: Location, p: Payload, h: Header)
    requires GetReq in s.inFlight && s.socket.None?
    ensures Step(s, loc, Succeeded(GetReq, p, h)).socket ==
            Some(Conn(SocketAddress(loc, SocketURL(p)), CONNECTING))
  {
  }

  /** firstStateHandler called again while the connection is OPEN keeps that connection. */
  lemma FirstStateIdempotent(s: Scope, loc: Location, h1: Header, h2: Header)
    requires NeedsSocket(s)
    ensures var t := AfterFirstState(s, loc, h1);
            var u := t.(socket := Some(t.socket.value.(readyState := OPEN)));
            AfterFirstState(u, loc, h2).socket == u.socket
  {
  }

  /** The startup GET is pending or the connection exists, never both, never twice. */
  predicate SingleSocket(s: Scope) {
    s.inFlight[GetReq] + (if s.socket.Some? then 1 else 0) <= 1
  }

  /** No event issues a GET, and the one that opens a connection consumes the pending GET. */
  lemma GetCountStep(s: Scope, loc: Location, e: Event)
    ensures Step(s, loc, e).inFlight[GetReq] + (if Opens(s, e) then 1 else 0) <= s.inFlight[GetReq]
    ensures Step(s, loc, e).socket.Some? && s.socket.None? ==> Opens(s, e)
  {
    if Delivered(s, e) {
      match e
      case Succeeded(r, p, h) =>
        assert Step(s, loc, e).inFlight == s.inFlight - multiset{r};
      case Failed(r) =>
        FailureFrame(s, loc, r);
      case Message(p) =>
      case Observed =>
        WriteThrough(s, loc);
      case _ =>
    }
  }

  /** Every event keeps SingleSocket, and an existing connection keeps its address. */
  lemma SingleSocketStep(s: Scope, loc: Location, e: Event)
    requires SingleSocket(s)
    ensures SingleSocket(Step(s, loc, e))
    ensures s.socket.Some? ==>
              Step(s, loc, e).socket.Some? && Step(s, loc, e).socket.value.url == s.socket.value.url
  {
    GetCountStep(s, loc, e);
  }

  /** The event opens a new connection (firstStateHandler's `new WebSocket`). */
  predicate Opens(s: Scope, e: Event) {
    Delivered(s, e) && e.Succeeded? && e.req.GetReq? && NeedsSocket(s)
  }

  /** How many connections a sequence of events opens. */
  function OpenCount(s: Scope, loc: Location, es: seq<Event>): nat
    decreases |es|
  {
    if es == [] then 0
    else (if Opens(s, es[0]) then 1 else 0) + OpenCount(Step(s, loc, es[0]), loc, es[1..])
  }

  /** A sequence of events opens no more connections than there are pending startup GETs. */
  lemma {:induction false} OpenCountBound(s: Scope, loc: Location, es: seq<Event>)
    decreases |es|
    ensures OpenCount(s, loc, es) <= s.inFlight[GetReq]
  {
    if es != [] {
      GetCountStep(s, loc, es[0]);
      OpenCountBound(Step(s, loc, es[0]), loc, es[1..]);
    }
  }

  /** From startup, any order of events opens at most one push connection. */
  lemma AtMostOneConnection(loc: Location, es: seq<Event>)
    ensures OpenCount(Init(), loc, es) <= 1
  {
    OpenCountBound(Init(), loc, es);
  }

  /** Once a connection exists it is never replaced, whatever happens next. */
  lemma {:induction false} ConnectionKept(s: Scope, loc: Location, es: seq<Event>)
    decreases |es|
    requires SingleSocket(s) && s.socket.Some?
    ensures Run(s, loc, es).socket.Some?
    ensures Run(s, loc, es).socket.value.url == s.socket.value.url
  {
    if es != [] {
      SingleSocketStep(s, loc, es[0]);
      ConnectionKept(Step(s, loc, es[0]), loc, es[1..]);
    }
  }

  /** Startup with DEFAULTS then GET (granting write access): the state is the
      GET payload, the latch is open and one connection is being opened. */
  lemma InitialLoad(loc: Location)
    ensures var get := map["count" := "1", "socketURL" := "/ws"];
            var s := Run(Init(), loc, [Succeeded(DefaultsReq, map["color" := "blue"], map[]),
                                       Succeeded(GetReq, get, map["x-is-rw" := "true"])]);
            && s.state == get && s.defaults == map["color" := "blue"]
            && !s.stateReadOnly && !s.isUpdating && !s.updateFailed
            && s.socket == Some(Conn(SocketAddress(loc, "/ws"), CONNECTING))
            && s.inFlight == multiset{}
  {
    var get := map["count" := "1", "socketURL" := "/ws"];
    var e1 := Succeeded(DefaultsReq, map["color" := "blue"], map[]);
    var e2 := Succeeded(GetReq, get, map["x-is-rw" := "true"]);
    var s1 := Step(Init(), loc, e1);
    assert s1.inFlight == multiset{GetReq};
    var s2 := Step(s1, loc, e2);
    assert SocketURL(get) == "/ws";
    assert s2.inFlight == multiset{};
    assert [e1, e2][1..] == [e2] && [e2][1..] == [];
    assert Run(Init(), loc, [e1, e2]) == Run(s1, loc, [e2]) == Run(s2, loc, []) == s2;
  }

  /** A failed write is not rolled back: the locally edited state stays. */
  lemma FailedWriteKeepsEdit(s: Scope, loc: Location, p: Payload)
    ensures var t := Run(s, loc, [Edit(p), Observed, Failed(PutReq(p))]);
            t.state == p && t.updateFailed && t.inFlight == s.inFlight
            && t.stateReadOnly == s.stateReadOnly && t.socket == s.socket
  {
    var s1 := s.(state := p);
    var s2 := s1.(inFlight := s1.inFlight + multiset{PutReq(p)});
    var s3 := s2.(inFlight := s2.inFlight - multiset{PutReq(p)}, updateFailed := true);
    WriteThrough(s1, loc);
    FailureFrame(s2, loc, PutReq(p));
    RunCons(s2, loc, Failed(PutReq(p)), []);
    RunCons(s1, loc, Observed, [Failed(PutReq(p))]);
    RunCons(s, loc, Edit(p), [Observed, Failed(PutReq(p))]);
    assert s2.inFlight - multiset{PutReq(p)} == s.inFlight;
  }
}
