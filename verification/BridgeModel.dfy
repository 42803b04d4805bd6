/** The native-bridge client as a state machine: one function for each handler,
    over the module's variables, the event loop's queues and a history. */
module BridgeModel {
  import opened Basics

  /** The `ready` promise. */
  datatype Ready = Unsettled | Resolved | Rejected

  /** The `socket` variable with its ready state. */
  datatype Socket = NoSocket | Connecting | Open | Closing

  /** Why a call was made, as far as its reply is used here. */
  datatype Purpose = Ordinary | InitialRoute | TokenRefresh

  /** Continuations that wait in the event loop, first in first out. */
  datatype Job =
    | Continue(call: nat)                      // the body of an invoke, once ready
    | Refuse(call: nat)                        // an invoke whose ready promise failed
    | Deliver(path: Option<string>)            // the initial route, fetched after connect
    | Replay(callback: nat, route: Route)      // a held route for its first subscriber
    | Adopt(token: string)                     // a refreshed token

  /** An entry of the pending map. */
  datatype Waiter = Waiter(id: nat, call: nat)

  /** A launch route, numbered by arrival. */
  datatype Route = Route(number: nat, path: string)

  datatype Outcome = NotReady | NotConnected | Replied(id: nat, ok: bool)

  datatype Settlement = Settlement(call: nat, outcome: Outcome)

  datatype Frame = Auth(token: Option<string>) | Call(id: nat)

  datatype Sent = Sent(connection: nat, frame: Frame)

  /** What has been observable from outside so far. */
  datatype History = History(
    purposes: seq<Purpose>,             // every call issued, in order
    numbered: seq<Waiter>,              // ids given to calls
    settlements: seq<Settlement>,
    connections: nat,                   // sockets created
    sent: seq<Sent>,
    closes: nat,                        // closes since the last open
    routes: nat,                        // launch routes that arrived
    dispatched: seq<nat>,               // routes handed to subscribers on arrival
    replayed: seq<nat>                  // held routes handed to a first subscriber
  )

  datatype State = State(
    ready: Ready,
    firstReady: bool,
    waiting: seq<nat>,                  // invokes that wait for ready
    jobs: seq<Job>,
    socket: Socket,
    booted: bool,
    timer: Option<nat>,                 // a scheduled connect and its delay
    reconnectDelay: nat,
    tokenInitialized: bool,
    currentToken: Option<string>,
    refreshing: bool,
    nextId: nat,
    pending: seq<Waiter>,               // in insertion order, as a Map keeps it
    listeners: map<string, set<nat>>,
    heldRoute: Option<Route>,
    past: History
  )

  const FIRST_DELAY := 500
  const MAX_DELAY := 10000
  const NAVIGATE := "navigate"

  const INITIAL := State(Unsettled, true, [], [], NoSocket, false, None, FIRST_DELAY, false, None, false, 1, [],
                         map[], None, History([], [], [], 0, [], 0, 0, [], []))

  datatype Message =
    | ReadyMessage
    | Reply(id: nat, ok: bool, result: Option<string>)   // a non-empty string result, if it is one
    | EventMessage(name: string)
    | ErrorMessage
    | Unreadable

  datatype Event =
    | Connect(endpoint: Option<Option<string>>)          // the endpoint's token, if there is an endpoint
    | Opened
    | Failing                                            // the socket leaves OPEN before `close` is handled
    | Closed
    | Receive(message: Message)
    | Invoke
    | Subscribe(event: string, callback: nat)
    | Unsubscribe(event: string, callback: nat)
    | DeepLink(path: string)
    | RefreshTick
    | RunJob

  // ----- Handlers -----

  function MapContinue(calls: seq<nat>): seq<Job> {
    if calls == [] then [] else [Continue(calls[0])] + MapContinue(calls[1..])
  }

  function MapRefuse(calls: seq<nat>): seq<Job> {
    if calls == [] then [] else [Refuse(calls[0])] + MapRefuse(calls[1..])
  }

  function ResolveReady(st: State): State {
    if st.ready != Unsettled then st
    else st.(ready := Resolved, waiting := [], jobs := st.jobs + MapContinue(st.waiting))
  }

  function RejectReady(st: State): State {
    if st.ready != Unsettled then st
    else st.(ready := Rejected, waiting := [], jobs := st.jobs + MapRefuse(st.waiting))
  }

  /** `invoke`: `ready.then(…)`. */
  function InvokeAs(st: State, purpose: Purpose): State {
    var call := |st.past.purposes|;
    var st' := st.(past := st.past.(purposes := st.past.purposes + [purpose]));
    match st.ready
    case Unsettled => st'.(waiting := st.waiting + [call])
    case Resolved => st'.(jobs := st.jobs + [Continue(call)])
    case Rejected => st'.(jobs := st.jobs + [Refuse(call)])
  }

  function Settle(st: State, call: nat, outcome: Outcome): State {
    st.(past := st.past.(settlements := st.past.settlements + [Settlement(call, outcome)]))
  }

  function Send(st: State, frame: Frame): State {
    st.(past := st.past.(sent := st.past.sent + [Sent(st.past.connections, frame)]))
  }

  /** The body of `invoke` once ready: the id is taken before the socket is looked at. */
  function ContinueCall(st: State, call: nat): State {
    var id := st.nextId;
    var st' := st.(nextId := id + 1, past := st.past.(numbered := st.past.numbered + [Waiter(id, call)]));
    if st.socket != Open then Settle(st', call, NotConnected)
    else Send(st'.(pending := st.pending + [Waiter(id, call)]), Call(id))
  }

  /** The position of an id in the pending map, or its size. */
  function Find(pending: seq<Waiter>, id: nat): (k: nat)
    ensures k <= |pending|
    ensures k < |pending| ==> pending[k].id == id
    ensures forall j | 0 <= j < k :: pending[j].id != id
  {
    if pending == [] || pending[0].id == id then 0 else 1 + Find(pending[1..], id)
  }

  function HandleReply(st: State, id: nat, ok: bool, result: Option<string>): State {
    var k := Find(st.pending, id);
    if k == |st.pending| then st
    else
      var call := st.pending[k].call;
      var st' := Settle(st.(pending := st.pending[..k] + st.pending[k + 1..]), call, Replied(id, ok));
      st'.(jobs := st.jobs + FollowUp(st, call, ok, result))
  }

  /** What the code itself hangs on a reply. */
  function FollowUp(st: State, call: nat, ok: bool, result: Option<string>): seq<Job> {
    if !ok || call >= |st.past.purposes| then []
    else
      match st.past.purposes[call]
      case InitialRoute => [Deliver(result)]
      case TokenRefresh => if result.Some? then [Adopt(result.value)] else []
      case Ordinary => []
  }

  function HandleMessage(st: State, message: Message): State {
    match message
    case ReadyMessage =>
      var st' := ResolveReady(st);
      if !st'.firstReady then st'
      else InvokeAs(st'.(firstReady := false), InitialRoute).(refreshing := true)
    case Reply(id, ok, result) => HandleReply(st, id, ok, result)
    case ErrorMessage => if st.firstReady then RejectReady(st) else st
    case EventMessage(_) => st
    case Unreadable => st
  }

  /** A socket for the endpoint; the endpoint's token counts only the first time. */
  function NewSocket(st: State, token: Option<string>): State {
    st.(tokenInitialized := true, currentToken := if st.tokenInitialized then st.currentToken else token,
        socket := Connecting, past := st.past.(connections := st.past.connections + 1))
  }

  function ConnectTo(st: State, endpoint: Option<Option<string>>): State {
    var st' := st.(booted := true, timer := None);
    if endpoint == None then RejectReady(st') else NewSocket(st', endpoint.value)
  }

  function HandleOpen(st: State): State {
    Send(st.(socket := Open, reconnectDelay := FIRST_DELAY, past := st.past.(closes := 0)), Auth(st.currentToken))
  }

  function HandleClose(st: State): State {
    st.(socket := NoSocket, timer := Some(st.reconnectDelay),
        reconnectDelay := if st.reconnectDelay * 2 < MAX_DELAY then st.reconnectDelay * 2 else MAX_DELAY,
        past := st.past.(closes := st.past.closes + 1))
  }

  function Subscribers(st: State, event: string): set<nat> {
    if event in st.listeners then st.listeners[event] else {}
  }

  /** `deliverInitialRoute` for a non-empty path: to the subscribers of the moment,
      or held for the first one that appears. */
  function DeliverRoute(st: State, path: string): State {
    if path == "" then st
    else
      var n := st.past.routes;
      if Subscribers(st, NAVIGATE) != {} then
        st.(past := st.past.(routes := n + 1, dispatched := st.past.dispatched + [n]))
      else
        st.(heldRoute := Some(Route(n, path)), past := st.past.(routes := n + 1))
  }

  function SubscribeTo(st: State, event: string, callback: nat): State {
    var listeners := st.listeners[event := Subscribers(st, event) + {callback}];
    if event == NAVIGATE && st.heldRoute.Some? then
      var route := st.heldRoute.value;
      st.(listeners := listeners, heldRoute := None, jobs := st.jobs + [Replay(callback, route)],
          past := st.past.(replayed := st.past.replayed + [route.number]))
    else st.(listeners := listeners)
  }

  function UnsubscribeFrom(st: State, event: string, callback: nat): State {
    if event in st.listeners then st.(listeners := st.listeners[event := st.listeners[event] - {callback}]) else st
  }

  function TakeJob(st: State): State
    requires st.jobs != []
  {
    st.(jobs := st.jobs[1..])
  }

  function AdoptToken(st: State, token: string): State {
    st.(currentToken := Some(token))
  }

  function RunFirstJob(st: State): State
    requires st.jobs != []
  {
    var st' := TakeJob(st);
    match st.jobs[0]
    case Continue(call) => ContinueCall(st', call)
    case Refuse(call) => Settle(st', call, NotReady)
    case Deliver(path) => if path.Some? then DeliverRoute(st', path.value) else st'
    case Replay(_, _) => st'
    case Adopt(token) => AdoptToken(st', token)
  }

  /** When an event can happen. `connect` runs once at start-up, then only from
      its own timer; the browser's socket events need a socket. */
  predicate Enabled(st: State, event: Event) {
    match event
    case Connect(_) => !st.booted || st.timer.Some?
    case Opened => st.socket == Connecting
    case Failing => st.socket == Connecting || st.socket == Open
    case Closed => st.socket != NoSocket
    case Receive(_) => st.socket != NoSocket
    case RunJob => st.jobs != []
    case RefreshTick => st.refreshing
    case _ => true
  }

  function Step(st: State, event: Event): State
    requires Enabled(st, event)
  {
    match event
    case Connect(endpoint) => ConnectTo(st, endpoint)
    case Opened => HandleOpen(st)
    case Failing => st.(socket := Closing)
    case Closed => HandleClose(st)
    case Receive(message) => HandleMessage(st, message)
    case Invoke => InvokeAs(st, Ordinary)
    case Subscribe(name, callback) => SubscribeTo(st, name, callback)
    case Unsubscribe(name, callback) => UnsubscribeFrom(st, name, callback)
    case DeepLink(path) => DeliverRoute(st, path)
    case RefreshTick => InvokeAs(st, TokenRefresh)
    case RunJob => RunFirstJob(st)
  }

  /** A run: every event is possible when it happens. */
  ghost predicate IsRun(st: State, events: seq<Event>)
    decreases |events|
  {
    events == [] || (Enabled(st, events[0]) && IsRun(Step(st, events[0]), events[1..]))
  }

  function After(st: State, events: seq<Event>): State
    requires IsRun(st, events)
    decreases |events|
  {
    if events == [] then st else After(Step(st, events[0]), events[1..])
  }
}
