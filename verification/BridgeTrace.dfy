/** What a run of the bridge client has done, told from its events: the calls it
    issued, the token it holds, its subscribers, and how its calls ended. */
module BridgeTrace {
  import opened Basics
  import opened BridgeModel
  import opened BridgeReady

  // ----- The calls issued -----

  /** The calls a run issues, in order: one for each invoke and each refresh tick,
      and one for the launch route at the first ready message. */
  function Issues(first: bool, events: seq<Event>): seq<Purpose>
    decreases |events|
  {
    if events == [] then []
    else
      match events[0]
      case Invoke => [Ordinary] + Issues(first, events[1..])
      case RefreshTick => [TokenRefresh] + Issues(first, events[1..])
      case Receive(ReadyMessage) => (if first then [InitialRoute] else []) + Issues(false, events[1..])
      case _ => Issues(first, events[1..])
  }

  /** The state's list of purposes after one event. */
  ghost predicate IssuesNow(st: State, next: State, purposes: seq<Purpose>) {
    next.past.purposes == st.past.purposes + purposes
  }

  lemma SamePurposes(st: State, call: nat, outcome: Outcome, path: string)
    ensures IssuesNow(st, ContinueCall(st, call), []) && IssuesNow(st, Settle(st, call, outcome), [])
    ensures IssuesNow(st, DeliverRoute(st, path), [])
    ensures ContinueCall(st, call).refreshing == st.refreshing && Settle(st, call, outcome).refreshing == st.refreshing
    ensures DeliverRoute(st, path).refreshing == st.refreshing
  {
    hide Subscribers;
  }

  lemma JobIssues(st: State)
    requires st.jobs != []
    ensures IssuesNow(st, RunFirstJob(st), []) && RunFirstJob(st).refreshing == st.refreshing
  {
    hide ContinueCall;
    hide Settle;
    hide DeliverRoute;
    var rest := TakeJob(st);
    match st.jobs[0]
    case Continue(call) => SamePurposes(rest, call, NotReady, "");
    case Refuse(call) => SamePurposes(rest, call, NotReady, "");
    case Deliver(path) =>
      if path.Some? {
        SamePurposes(rest, 0, NotReady, path.value);
      }
    case _ =>
  }

  lemma ReadyIssues(st: State)
    ensures IssuesNow(st, ResolveReady(st), []) && IssuesNow(st, RejectReady(st), [])
    ensures ResolveReady(st).refreshing == st.refreshing && RejectReady(st).refreshing == st.refreshing
  {
    hide MapContinue;
    hide MapRefuse;
  }

  lemma InvokeIssues(st: State, purpose: Purpose)
    ensures IssuesNow(st, InvokeAs(st, purpose), [purpose]) && InvokeAs(st, purpose).refreshing == st.refreshing
  {
  }

  lemma ReplyIssues(st: State, id: nat, ok: bool, result: Option<string>)
    ensures IssuesNow(st, HandleReply(st, id, ok, result), [])
    ensures HandleReply(st, id, ok, result).refreshing == st.refreshing
  {
    hide FollowUp;
    hide Find;
  }

  lemma MessageIssues(st: State, message: Message)
    ensures IssuesNow(st, HandleMessage(st, message),
                      if message == ReadyMessage && st.firstReady then [InitialRoute] else [])
    ensures HandleMessage(st, message).refreshing == (st.refreshing || (message == ReadyMessage && st.firstReady))
  {
    hide ResolveReady;
    hide RejectReady;
    hide InvokeAs;
    hide HandleReply;
    ReadyIssues(st);
    match message
    case ReadyMessage =>
      SameFlags(st);
      InvokeIssues(ResolveReady(st).(firstReady := false), InitialRoute);
    case Reply(id, ok, result) => ReplyIssues(st, id, ok, result);
    case _ =>
  }

  lemma SameFlags(st: State)
    ensures ResolveReady(st).firstReady == st.firstReady
  {
  }

  lemma OtherIssues(st: State, endpoint: Option<Option<string>>, name: string, callback: nat)
    ensures IssuesNow(st, ConnectTo(st, endpoint), []) && ConnectTo(st, endpoint).refreshing == st.refreshing
    ensures IssuesNow(st, SubscribeTo(st, name, callback), [])
    ensures SubscribeTo(st, name, callback).refreshing == st.refreshing
    ensures IssuesNow(st, UnsubscribeFrom(st, name, callback), [])
    ensures UnsubscribeFrom(st, name, callback).refreshing == st.refreshing
  {
    hide RejectReady;
    hide Subscribers;
    ReadyIssues(st.(booted := true, timer := None));
  }

  lemma SocketIssues(st: State)
    ensures IssuesNow(st, HandleOpen(st), []) && HandleOpen(st).refreshing == st.refreshing
    ensures IssuesNow(st, HandleClose(st), []) && HandleClose(st).refreshing == st.refreshing
  {
  }

  lemma StepIssues(st: State, event: Event)
    requires Enabled(st, event)
    ensures IssuesNow(st, Step(st, event), Issues(st.firstReady, [event]))
    ensures Step(st, event).refreshing == (st.refreshing || (event == READY && st.firstReady))
  {
    hide ConnectTo;
    hide HandleOpen;
    hide HandleClose;
    hide HandleMessage;
    hide InvokeAs;
    hide SubscribeTo;
    hide UnsubscribeFrom;
    hide DeliverRoute;
    hide RunFirstJob;
    assert [event][1..] == [];
    match event
    case Connect(endpoint) => OtherIssues(st, endpoint, "", 0);
    case Opened => SocketIssues(st);
    case Failing =>
    case Closed => SocketIssues(st);
    case Receive(message) => MessageIssues(st, message);
    case Invoke => InvokeIssues(st, Ordinary);
    case RefreshTick => InvokeIssues(st, TokenRefresh);
    case Subscribe(name, callback) => OtherIssues(st, None, name, callback);
    case Unsubscribe(name, callback) => OtherIssues(st, None, name, callback);
    case DeepLink(path) => SamePurposes(st, 0, NotReady, path);
    case RunJob => JobIssues(st);
  }

  lemma IssuesFirst(first: bool, events: seq<Event>)
    requires events != []
    ensures Issues(first, events) == Issues(first, [events[0]]) + Issues(first && events[0] != READY, events[1..])
  {
    assert [events[0]][1..] == [];
    if events[0] == READY {
      assert Issues(first, [events[0]]) == (if first then [InitialRoute] else []) + [];
    }
  }

  lemma {:induction false} IssuedInRun(st: State, events: seq<Event>)
    requires IsRun(st, events)
    ensures After(st, events).past.purposes == st.past.purposes + Issues(st.firstReady, events)
    ensures After(st, events).refreshing == (st.refreshing || (st.firstReady && READY in events))
    decreases |events|
  {
    hide Step;
    hide Enabled;
    hide Issues;
    if events == [] {
      NoIssues(st.firstReady);
    } else {
      var next := Step(st, events[0]);
      StepIssues(st, events[0]);
      StepReady(st, events[0]);
      IssuesFirst(st.firstReady, events);
      IssuedInRun(next, events[1..]);
      assert events == [events[0]] + events[1..];
    }
  }

  lemma NoIssues(first: bool)
    ensures Issues(first, []) == []
  {
  }

  /** Over every run the calls issued are those of its events, in order, and the
      token is refreshed from the first ready message on. */
  lemma CallsIssued(events: seq<Event>)
    requires IsRun(INITIAL, events)
    ensures After(INITIAL, events).past.purposes == Issues(true, events)
    ensures Enabled(After(INITIAL, events), RefreshTick) <==> READY in events
  {
    hide IsRun;
    hide After;
    hide Issues;
    IssuedInRun(INITIAL, events);
  }

  /** The launch route is asked for exactly once, at the first ready message. */
  lemma {:induction false} AskedOnce(first: bool, events: seq<Event>)
    ensures multiset(Issues(first, events))[InitialRoute] == if first && READY in events then 1 else 0
    decreases |events|
  {
    if events != [] {
      hide Issues;
      IssuesFirst(first, events);
      AskedOnce(first && events[0] != READY, events[1..]);
      IssuesOne(first, events[0]);
      assert events == [events[0]] + events[1..];
    }
  }

  lemma IssuesOne(first: bool, event: Event)
    ensures multiset(Issues(first, [event]))[InitialRoute] == if first && event == READY then 1 else 0
  {
    assert [event][1..] == [];
  }

  // ----- The token -----

  /** The newest token of a run: the first endpoint's, until a refreshed one is
      adopted. */
  ghost function Newest(st: State, events: seq<Event>, connected: bool, token: Option<string>): Option<string>
    requires IsRun(st, events)
    decreases |events|
  {
    if events == [] then token
    else
      var next, rest := Step(st, events[0]), events[1..];
      match events[0]
      case Connect(Some(first)) => Newest(next, rest, true, if connected then token else first)
      case RunJob => Newest(next, rest, connected, if st.jobs[0].Adopt? then Some(st.jobs[0].token) else token)
      case _ => Newest(next, rest, connected, token)
  }

  ghost predicate SameToken(a: State, b: State) {
    a.currentToken == b.currentToken && a.tokenInitialized == b.tokenInitialized
  }

  lemma CallToken(st: State, call: nat, outcome: Outcome, path: string)
    ensures SameToken(st, ContinueCall(st, call)) && SameToken(st, Settle(st, call, outcome))
    ensures SameToken(st, DeliverRoute(st, path))
  {
    hide Subscribers;
  }

  lemma JobToken(st: State)
    requires st.jobs != []
    ensures RunFirstJob(st).tokenInitialized == st.tokenInitialized
    ensures RunFirstJob(st).currentToken == if st.jobs[0].Adopt? then Some(st.jobs[0].token) else st.currentToken
  {
    hide ContinueCall;
    hide Settle;
    hide DeliverRoute;
    var rest := TakeJob(st);
    match st.jobs[0]
    case Continue(call) => CallToken(rest, call, NotReady, "");
    case Refuse(call) => CallToken(rest, call, NotReady, "");
    case Deliver(path) =>
      if path.Some? {
        CallToken(rest, 0, NotReady, path.value);
      }
    case _ =>
  }

  lemma InvokeToken(st: State, purpose: Purpose)
    ensures SameToken(st, InvokeAs(st, purpose))
  {
  }

  lemma ReadyToken(st: State)
    ensures SameToken(st, ResolveReady(st)) && SameToken(st, RejectReady(st))
  {
    hide MapContinue;
    hide MapRefuse;
  }

  lemma MessageToken(st: State, message: Message)
    ensures SameToken(st, HandleMessage(st, message))
  {
    hide ResolveReady;
    hide RejectReady;
    hide InvokeAs;
    hide HandleReply;
    ReadyToken(st);
    match message
    case ReadyMessage =>
      InvokeToken(ResolveReady(st).(firstReady := false), InitialRoute);
    case Reply(id, ok, result) => ReplyToken(st, id, ok, result);
    case _ =>
  }

  lemma ReplyToken(st: State, id: nat, ok: bool, result: Option<string>)
    ensures SameToken(st, HandleReply(st, id, ok, result))
  {
    hide FollowUp;
    hide Find;
  }

  lemma SubscriptionToken(st: State, name: string, callback: nat)
    ensures SameToken(st, SubscribeTo(st, name, callback)) && SameToken(st, UnsubscribeFrom(st, name, callback))
  {
    hide Subscribers;
  }

  lemma ConnectToken(st: State, endpoint: Option<Option<string>>)
    ensures endpoint == None ==> SameToken(st, ConnectTo(st, endpoint))
    ensures endpoint.Some? ==>
              var next := ConnectTo(st, endpoint);
              && next.tokenInitialized
              && next.currentToken == if st.tokenInitialized then st.currentToken else endpoint.value
  {
    hide RejectReady;
    ReadyToken(st.(booted := true, timer := None));
  }

  lemma SocketToken(st: State)
    ensures SameToken(st, HandleOpen(st)) && SameToken(st, HandleClose(st))
    ensures HandleOpen(st).past.sent == st.past.sent + [Sent(st.past.connections, Auth(st.currentToken))]
  {
  }

  /** Only the first endpoint and an adopted token change the token. */
  lemma StepToken(st: State, event: Event)
    requires Enabled(st, event)
    ensures var next := Step(st, event);
            match event {
              case Connect(Some(first)) =>
                next.tokenInitialized && next.currentToken == if st.tokenInitialized then st.currentToken else first
              case RunJob =>
                && next.tokenInitialized == st.tokenInitialized
                && next.currentToken == if st.jobs[0].Adopt? then Some(st.jobs[0].token) else st.currentToken
              case _ => SameToken(st, next)
            }
  {
    hide ConnectTo;
    hide HandleOpen;
    hide HandleClose;
    hide HandleMessage;
    hide InvokeAs;
    hide SubscribeTo;
    hide UnsubscribeFrom;
    hide DeliverRoute;
    hide RunFirstJob;
    match event
    case Connect(endpoint) => ConnectToken(st, endpoint);
    case Opened => SocketToken(st);
    case Failing =>
    case Closed => SocketToken(st);
    case Receive(message) => MessageToken(st, message);
    case Invoke => InvokeToken(st, Ordinary);
    case RefreshTick => InvokeToken(st, TokenRefresh);
    case Subscribe(name, callback) => SubscriptionToken(st, name, callback);
    case Unsubscribe(name, callback) => SubscriptionToken(st, name, callback);
    case DeepLink(path) => CallToken(st, 0, NotReady, path);
    case RunJob => JobToken(st);
  }

  lemma {:induction false} NewestInRun(st: State, events: seq<Event>)
    requires IsRun(st, events)
    ensures After(st, events).currentToken == Newest(st, events, st.tokenInitialized, st.currentToken)
    decreases |events|
  {
    hide Step;
    hide Enabled;
    if events != [] {
      StepToken(st, events[0]);
      NewestInRun(Step(st, events[0]), events[1..]);
    }
  }

  /** Every connection authenticates with the newest token: whenever a socket
      opens, after whatever run, the one frame sent is the auth frame with it. */
  lemma AuthCarriesNewest(events: seq<Event>)
    requires IsRun(INITIAL, events) && Enabled(After(INITIAL, events), Opened)
    ensures var st := After(INITIAL, events);
            Step(st, Opened).past.sent
            == st.past.sent + [Sent(st.past.connections, Auth(Newest(INITIAL, events, false, None)))]
  {
    hide IsRun;
    hide After;
    hide Newest;
    hide HandleOpen;
    NewestInRun(INITIAL, events);
    SocketToken(After(INITIAL, events));
  }

  // ----- The subscribers -----

  /** The callbacks of an event after a run: those subscribed and not removed since. */
  function Subscribed(events: seq<Event>, name: string, callbacks: set<nat>): set<nat>
    decreases |events|
  {
    if events == [] then callbacks
    else
      match events[0]
      case Subscribe(event, callback) =>
        Subscribed(events[1..], name, if event == name then callbacks + {callback} else callbacks)
      case Unsubscribe(event, callback) =>
        Subscribed(events[1..], name, if event == name then callbacks - {callback} else callbacks)
      case _ => Subscribed(events[1..], name, callbacks)
  }

  lemma CallListeners(st: State, call: nat, outcome: Outcome, path: string)
    ensures ContinueCall(st, call).listeners == st.listeners && Settle(st, call, outcome).listeners == st.listeners
    ensures DeliverRoute(st, path).listeners == st.listeners
  {
    hide Subscribers;
  }

  lemma JobListeners(st: State)
    requires st.jobs != []
    ensures RunFirstJob(st).listeners == st.listeners
  {
    hide ContinueCall;
    hide Settle;
    hide DeliverRoute;
    var rest := TakeJob(st);
    match st.jobs[0]
    case Continue(call) => CallListeners(rest, call, NotReady, "");
    case Refuse(call) => CallListeners(rest, call, NotReady, "");
    case Deliver(path) =>
      if path.Some? {
        CallListeners(rest, 0, NotReady, path.value);
      }
    case _ =>
  }

  lemma ReadyListeners(st: State)
    ensures ResolveReady(st).listeners == RejectReady(st).listeners == st.listeners
  {
    hide MapContinue;
    hide MapRefuse;
  }

  lemma InvokeListeners(st: State, purpose: Purpose)
    ensures InvokeAs(st, purpose).listeners == st.listeners
  {
  }

  lemma ReplyListeners(st: State, id: nat, ok: bool, result: Option<string>)
    ensures HandleReply(st, id, ok, result).listeners == st.listeners
  {
    hide FollowUp;
    hide Find;
  }

  lemma MessageListeners(st: State, message: Message)
    ensures HandleMessage(st, message).listeners == st.listeners
  {
    hide ResolveReady;
    hide RejectReady;
    hide InvokeAs;
    hide HandleReply;
    ReadyListeners(st);
    match message
    case ReadyMessage =>
      InvokeListeners(ResolveReady(st).(firstReady := false), InitialRoute);
    case Reply(id, ok, result) => ReplyListeners(st, id, ok, result);
    case _ =>
  }

  lemma SocketListeners(st: State, endpoint: Option<Option<string>>)
    ensures ConnectTo(st, endpoint).listeners == st.listeners
    ensures HandleOpen(st).listeners == HandleClose(st).listeners == st.listeners
  {
    hide RejectReady;
    ReadyListeners(st.(booted := true, timer := None));
  }

  lemma SubscriptionListeners(st: State, event: string, callback: nat, name: string)
    ensures Subscribers(SubscribeTo(st, event, callback), name)
            == if event == name then Subscribers(st, name) + {callback} else Subscribers(st, name)
    ensures Subscribers(UnsubscribeFrom(st, event, callback), name)
            == if event == name then Subscribers(st, name) - {callback} else Subscribers(st, name)
  {
  }

  lemma StepSubscribers(st: State, event: Event, name: string)
    requires Enabled(st, event)
    ensures Subscribers(Step(st, event), name) == Subscribed([event], name, Subscribers(st, name))
  {
    hide ConnectTo;
    hide HandleOpen;
    hide HandleClose;
    hide HandleMessage;
    hide InvokeAs;
    hide SubscribeTo;
    hide UnsubscribeFrom;
    hide DeliverRoute;
    hide RunFirstJob;
    assert [event][1..] == [];
    match event
    case Connect(endpoint) => SocketListeners(st, endpoint);
    case Opened => SocketListeners(st, None);
    case Failing =>
    case Closed => SocketListeners(st, None);
    case Receive(message) => MessageListeners(st, message);
    case Invoke => InvokeListeners(st, Ordinary);
    case RefreshTick => InvokeListeners(st, TokenRefresh);
    case Subscribe(to, callback) => SubscriptionListeners(st, to, callback, name);
    case Unsubscribe(from, callback) => SubscriptionListeners(st, from, callback, name);
    case DeepLink(path) => CallListeners(st, 0, NotReady, path);
    case RunJob => JobListeners(st);
  }

  lemma SubscribedFirst(events: seq<Event>, name: string, callbacks: set<nat>)
    requires events != []
    ensures Subscribed(events, name, callbacks)
            == Subscribed(events[1..], name, Subscribed([events[0]], name, callbacks))
  {
    assert [events[0]][1..] == [];
  }

  /** After every run an event's subscribers are those its subscriptions leave. */
  lemma {:induction false} SubscribersInRun(st: State, events: seq<Event>, name: string)
    requires IsRun(st, events)
    ensures Subscribers(After(st, events), name) == Subscribed(events, name, Subscribers(st, name))
    decreases |events|
  {
    hide Step;
    hide Enabled;
    hide Subscribers;
    if events != [] {
      hide Subscribed;
      StepSubscribers(st, events[0], name);
      SubscribedFirst(events, name, Subscribers(st, name));
      SubscribersInRun(Step(st, events[0]), events[1..], name);
    }
  }
}
