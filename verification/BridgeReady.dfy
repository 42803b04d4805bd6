/** When a protocol error is fatal: the ready promise and the messages of a run. */
module BridgeReady {
  import opened Basics
  import opened BridgeModel

  const READY := Receive(ReadyMessage)

  /** Neither the promise nor the memory of the first ready message changes. */
  ghost predicate SameReady(a: State, b: State) {
    a.ready == b.ready && a.firstReady == b.firstReady
  }

  lemma CallReady(st: State, call: nat, outcome: Outcome)
    ensures SameReady(st, ContinueCall(st, call)) && SameReady(st, Settle(st, call, outcome))
  {
  }

  lemma InvokeReady(st: State, purpose: Purpose)
    ensures SameReady(st, InvokeAs(st, purpose))
  {
  }

  lemma RouteReady(st: State, path: string)
    ensures SameReady(st, DeliverRoute(st, path))
  {
  }

  lemma SubscribeReady(st: State, name: string, callback: nat)
    ensures SameReady(st, SubscribeTo(st, name, callback)) && SameReady(st, UnsubscribeFrom(st, name, callback))
  {
  }

  lemma SocketReady(st: State)
    ensures SameReady(st, HandleOpen(st)) && SameReady(st, HandleClose(st))
  {
  }

  lemma ReplyReady(st: State, id: nat, ok: bool, result: Option<string>)
    ensures SameReady(st, HandleReply(st, id, ok, result))
  {
    hide FollowUp;
  }

  lemma MessageReady(st: State, message: Message)
    ensures HandleMessage(st, message).firstReady == (st.firstReady && message != ReadyMessage)
    ensures message != ReadyMessage && st.ready != Resolved ==> HandleMessage(st, message).ready != Resolved
  {
    hide MapContinue;
    hide MapRefuse;
    hide InvokeAs;
    hide HandleReply;
    match message
    case ReadyMessage => InvokeReady(ResolveReady(st).(firstReady := false), InitialRoute);
    case Reply(id, ok, result) => ReplyReady(st, id, ok, result);
    case _ =>
  }

  lemma JobReady(st: State)
    requires st.jobs != []
    ensures SameReady(st, RunFirstJob(st))
  {
    hide ContinueCall;
    hide Settle;
    hide DeliverRoute;
    var rest := TakeJob(st);
    match st.jobs[0]
    case Continue(call) => CallReady(rest, call, NotReady);
    case Refuse(call) => CallReady(rest, call, NotReady);
    case Deliver(path) =>
      if path.Some? {
        RouteReady(rest, path.value);
      }
    case _ =>
  }

  lemma ConnectReady(st: State, endpoint: Option<Option<string>>)
    ensures ConnectTo(st, endpoint).firstReady == st.firstReady
    ensures st.ready != Resolved ==> ConnectTo(st, endpoint).ready != Resolved
  {
    hide MapRefuse;
  }

  /** Only a ready message resolves the promise, and the first one is remembered. */
  lemma StepReady(st: State, event: Event)
    requires Enabled(st, event)
    ensures Step(st, event).firstReady == (st.firstReady && event != READY)
    ensures event != READY && st.ready != Resolved ==> Step(st, event).ready != Resolved
  {
    hide HandleMessage;
    hide RunFirstJob;
    hide ConnectTo;
    hide HandleOpen;
    hide HandleClose;
    hide InvokeAs;
    hide SubscribeTo;
    hide UnsubscribeFrom;
    hide DeliverRoute;
    match event
    case Receive(message) => MessageReady(st, message);
    case RunJob => JobReady(st);
    case Connect(endpoint) => ConnectReady(st, endpoint);
    case Opened => SocketReady(st);
    case Closed => SocketReady(st);
    case Invoke => InvokeReady(st, Ordinary);
    case RefreshTick => InvokeReady(st, TokenRefresh);
    case Subscribe(name, callback) => SubscribeReady(st, name, callback);
    case Unsubscribe(name, callback) => SubscribeReady(st, name, callback);
    case DeepLink(path) => RouteReady(st, path);
    case Failing =>
  }

  lemma {:induction false} ReadyInRun(st: State, events: seq<Event>)
    requires IsRun(st, events)
    ensures After(st, events).firstReady == (st.firstReady && READY !in events)
    ensures READY !in events && st.ready != Resolved ==> After(st, events).ready != Resolved
    decreases |events|
  {
    hide Step;
    hide Enabled;
    if events != [] {
      StepReady(st, events[0]);
      ReadyInRun(Step(st, events[0]), events[1..]);
      assert events == [events[0]] + events[1..];
    }
  }

  lemma ErrorRejects(st: State)
    requires st.firstReady ==> st.ready != Resolved
    ensures HandleMessage(st, ErrorMessage).ready == Rejected <==> st.ready == Rejected || st.firstReady
  {
    hide MapRefuse;
  }

  /** After every run an error message leaves the promise rejected exactly when it
      was rejected before or no ready message has come yet, on whichever
      connection the error arrives. */
  lemma ErrorIsFatalIff(events: seq<Event>)
    requires IsRun(INITIAL, events)
    ensures var st := After(INITIAL, events);
            HandleMessage(st, ErrorMessage).ready == Rejected <==> st.ready == Rejected || READY !in events
  {
    hide HandleMessage;
    hide After;
    hide IsRun;
    ReadyInRun(INITIAL, events);
    ErrorRejects(After(INITIAL, events));
  }

  lemma OneMore(st: State, event: Event, rest: seq<Event>)
    requires Enabled(st, event) && IsRun(Step(st, event), rest)
    ensures IsRun(st, [event] + rest) && After(st, [event] + rest) == After(Step(st, event), rest)
  {
    hide Step;
    hide Enabled;
    assert ([event] + rest)[1..] == rest;
  }

  /** A first connection that opens and closes, and an error on the second. */
  lemma ErrorOnReconnect() returns (events: seq<Event>)
    ensures IsRun(INITIAL, events) && READY !in events
    ensures var st := After(INITIAL, events);
            st.past.connections == 2 && st.ready == Unsettled && HandleMessage(st, ErrorMessage).ready == Rejected
  {
    var connect := Connect(Some(None));
    var s1 := Step(INITIAL, connect);
    var s2 := Step(s1, Opened);
    var s3 := Step(s2, Closed);
    var s4 := Step(s3, connect);
    OneMore(s3, connect, []);
    OneMore(s2, Closed, [connect]);
    OneMore(s1, Opened, [Closed] + [connect]);
    OneMore(INITIAL, connect, [Opened] + ([Closed] + [connect]));
    events := [connect] + ([Opened] + ([Closed] + [connect]));
    ErrorRejects(s4);
  }
}
