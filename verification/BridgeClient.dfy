/** The module variables of the native-bridge client and the handlers that change
    them, each proved against its step of the state machine. */
module BridgeClient {
  import opened Basics
  import opened BridgeModel
  import BridgeOrder
  import BridgeTheorems

  class Client {
    var ready: Ready
    var firstReady: bool
    var waiting: seq<nat>
    var jobs: seq<Job>
    var socket: Socket
    var booted: bool
    var timer: Option<nat>
    var reconnectDelay: nat
    var tokenInitialized: bool
    var currentToken: Option<string>
    var refreshing: bool
    var nextId: nat
    var pending: seq<Waiter>
    var listeners: map<string, set<nat>>
    var heldRoute: Option<Route>
    var past: History

    /** The state machine's view of the variables. */
    function Now(): State
      reads this
    {
      State(ready, firstReady, waiting, jobs, socket, booted, timer, reconnectDelay, tokenInitialized, currentToken,
            refreshing, nextId, pending, listeners, heldRoute, past)
    }

    /** The discipline of calls, ids, connections and launch routes. */
    ghost predicate Valid()
      reads this
    {
      BridgeTheorems.Inv(Now()) && BridgeOrder.OrderInv(Now())
    }

    constructor ()
      ensures Now() == INITIAL && Valid()
    {
      ready, firstReady, waiting, jobs := Unsettled, true, [], [];
      socket, booted, timer, reconnectDelay := NoSocket, false, None, FIRST_DELAY;
      tokenInitialized, currentToken, refreshing := false, None, false;
      nextId, pending, listeners, heldRoute := 1, [], map[], None;
      past := History([], [], [], 0, [], 0, 0, [], []);
      new;
      BridgeTheorems.InvAtFirst();
      BridgeOrder.OrderAtFirst();
    }

    /** Whatever happens next, its handler makes exactly the machine's step and keeps
        the discipline. */
    method Handle(event: Event)
      requires Valid() && Enabled(Now(), event)
      modifies this
      ensures Now() == Step(old(Now()), event) && Valid()
    {
      ghost var st := Now();
      Dispatch(event);
      KeepsDiscipline(st, event);
    }

    /** The event loop: each event goes to its handler. */
    method Dispatch(event: Event)
      requires Enabled(Now(), event)
      modifies this
      ensures Now() == Step(old(Now()), event)
    {
      hide ConnectTo;
      hide HandleOpen;
      hide HandleClose;
      hide HandleMessage;
      hide InvokeAs;
      hide SubscribeTo;
      hide UnsubscribeFrom;
      hide DeliverRoute;
      hide RunFirstJob;
      match event {
        case Connect(endpoint) => Connect(endpoint);
        case Opened => OnOpen();
        case Failing => socket := Closing;
        case Closed => OnClose();
        case Receive(message) => OnMessage(message);
        case Invoke => InvokeMethod(Ordinary);
        case Subscribe(name, callback) => On(name, callback);
        case Unsubscribe(name, callback) => Off(name, callback);
        case DeepLink(path) => DeliverInitialRoute(path);
        case RefreshTick => InvokeMethod(TokenRefresh);
        case RunJob => RunJob();
      }
    }

    method SettleReady(resolved: bool)
      modifies this
      ensures Now() == if resolved then ResolveReady(old(Now())) else RejectReady(old(Now()))
    {
      if ready == Unsettled {
        ready := if resolved then Resolved else Rejected;
        jobs := jobs + (if resolved then MapContinue(waiting) else MapRefuse(waiting));
        waiting := [];
      }
    }

    method InvokeMethod(purpose: Purpose)
      modifies this
      ensures Now() == InvokeAs(old(Now()), purpose)
    {
      var call := |past.purposes|;
      past := past.(purposes := past.purposes + [purpose]);
      match ready {
        case Unsettled => waiting := waiting + [call];
        case Resolved => jobs := jobs + [Continue(call)];
        case Rejected => jobs := jobs + [Refuse(call)];
      }
    }

    method SettleCall(call: nat, outcome: Outcome)
      modifies this`past
      ensures Now() == Settle(old(Now()), call, outcome)
    {
      past := past.(settlements := past.settlements + [Settlement(call, outcome)]);
    }

    method SendFrame(frame: Frame)
      modifies this`past
      ensures Now() == Send(old(Now()), frame)
    {
      past := past.(sent := past.sent + [Sent(past.connections, frame)]);
    }

    method RunContinuation(call: nat)
      modifies this
      ensures Now() == ContinueCall(old(Now()), call)
    {
      var id := nextId;
      nextId := nextId + 1;
      past := past.(numbered := past.numbered + [Waiter(id, call)]);
      if socket != Open {
        SettleCall(call, NotConnected);
        return;
      }
      pending := pending + [Waiter(id, call)];
      SendFrame(Call(id));
    }

    method OnMessage(message: Message)
      modifies this
      ensures Now() == HandleMessage(old(Now()), message)
    {
      match message {
        case ReadyMessage =>
          SettleReady(true);
          if firstReady {
            firstReady := false;
            InvokeMethod(InitialRoute);
            refreshing := true;
          }
        case Reply(id, ok, result) => OnReply(id, ok, result);
        case ErrorMessage =>
          if firstReady {
            SettleReady(false);
          }
        case EventMessage(_) =>
        case Unreadable =>
      }
    }

    method OnReply(id: nat, ok: bool, result: Option<string>)
      modifies this
      ensures Now() == HandleReply(old(Now()), id, ok, result)
    {
      var k := 0;
      while k < |pending| && pending[k].id != id
        invariant 0 <= k <= |pending|
        invariant forall j | 0 <= j < k :: pending[j].id != id
        invariant Now() == old(Now())
      {
        k := k + 1;
      }
      FoundAt(pending, id, k);
      if k == |pending| {
        return;
      }
      var call := pending[k].call;
      var followUp := FollowUp(Now(), call, ok, result);
      pending := pending[..k] + pending[k + 1..];
      SettleCall(call, Replied(id, ok));
      jobs := jobs + followUp;
    }

    method Connect(endpoint: Option<Option<string>>)
      modifies this
      ensures Now() == ConnectTo(old(Now()), endpoint)
    {
      hide ResolveReady;
      hide RejectReady;
      hide NewSocket;
      booted, timer := true, None;
      if endpoint == None {
        SettleReady(false);
        return;
      }
      CreateSocket(endpoint.value);
    }

    method CreateSocket(token: Option<string>)
      modifies this
      ensures Now() == NewSocket(old(Now()), token)
    {
      if !tokenInitialized {
        currentToken := token;
        tokenInitialized := true;
      }
      socket := Connecting;
      past := past.(connections := past.connections + 1);
    }

    method OnOpen()
      modifies this
      ensures Now() == HandleOpen(old(Now()))
    {
      socket := Open;
      reconnectDelay := FIRST_DELAY;
      past := past.(closes := 0);
      SendFrame(Auth(currentToken));
    }

    method OnClose()
      modifies this
      ensures Now() == HandleClose(old(Now()))
    {
      socket := NoSocket;
      timer := Some(reconnectDelay);
      reconnectDelay := if reconnectDelay * 2 < MAX_DELAY then reconnectDelay * 2 else MAX_DELAY;
      past := past.(closes := past.closes + 1);
    }

    method DeliverInitialRoute(path: string)
      modifies this
      ensures Now() == DeliverRoute(old(Now()), path)
    {
      if path == "" {
        return;
      }
      var n := past.routes;
      past := past.(routes := n + 1);
      if NAVIGATE in listeners && listeners[NAVIGATE] != {} {
        past := past.(dispatched := past.dispatched + [n]);
      } else {
        heldRoute := Some(Route(n, path));
      }
    }

    method On(event: string, callback: nat)
      modifies this
      ensures Now() == SubscribeTo(old(Now()), event, callback)
    {
      var group := if event in listeners then listeners[event] else {};
      listeners := listeners[event := group + {callback}];
      if event == NAVIGATE && heldRoute.Some? {
        var route := heldRoute.value;
        heldRoute := None;
        jobs := jobs + [Replay(callback, route)];
        past := past.(replayed := past.replayed + [route.number]);
      }
    }

    method Off(event: string, callback: nat)
      modifies this
      ensures Now() == UnsubscribeFrom(old(Now()), event, callback)
    {
      if event in listeners {
        listeners := listeners[event := listeners[event] - {callback}];
      }
    }

    /** One turn of the microtask queue. */
    method RunJob()
      requires jobs != []
      modifies this
      ensures Now() == RunFirstJob(old(Now()))
    {
      var job := jobs[0];
      jobs := jobs[1..];
      match job {
        case Continue(call) => RunContinuation(call);
        case Refuse(call) => SettleCall(call, NotReady);
        case Deliver(path) =>
          if path.Some? {
            DeliverInitialRoute(path.value);
          }
        case Replay(_, _) =>
        case Adopt(token) => currentToken := Some(token);
      }
    }
  }

  lemma KeepsDiscipline(st: State, event: Event)
    requires Enabled(st, event) && BridgeTheorems.Inv(st) && BridgeOrder.OrderInv(st)
    ensures BridgeTheorems.Inv(Step(st, event)) && BridgeOrder.OrderInv(Step(st, event))
  {
    hide *;
    BridgeTheorems.StepKeepsInv(st, event);
    BridgeOrder.StepKeepsOrder(st, event);
  }

  lemma FoundAt(pending: seq<Waiter>, id: nat, k: nat)
    requires k <= |pending| && forall j | 0 <= j < k :: pending[j].id != id
    requires k < |pending| ==> pending[k].id == id
    ensures Find(pending, id) == k
  {
  }
}
