/** What the bridge client does with the replies to its own calls: the launch
    route it asks for once, and the tokens it authenticates with. */
module BridgeFollowUps {
  import opened Basics
  import opened BridgeModel
  import opened BridgeTheorems

  // ----- The job queue is first in, first out -----

  lemma MapLength(calls: seq<nat>)
    ensures |MapContinue(calls)| == |MapRefuse(calls)| == |calls|
  {
    if calls != [] {
      MapLength(calls[1..]);
    }
  }

  lemma ReadyJobs(st: State)
    ensures st.jobs <= ResolveReady(st).jobs && st.jobs <= RejectReady(st).jobs
  {
    hide MapContinue;
    hide MapRefuse;
  }

  lemma InvokeJobs(st: State, purpose: Purpose)
    ensures st.jobs <= InvokeAs(st, purpose).jobs
  {
  }

  lemma ReplyJobs(st: State, id: nat, ok: bool, result: Option<string>)
    ensures st.jobs <= HandleReply(st, id, ok, result).jobs
  {
    hide FollowUp;
    hide Find;
  }

  lemma MessageJobs(st: State, message: Message)
    ensures st.jobs <= HandleMessage(st, message).jobs
  {
    hide ResolveReady;
    hide RejectReady;
    hide InvokeAs;
    hide HandleReply;
    ReadyJobs(st);
    match message
    case ReadyMessage =>
      InvokeJobs(ResolveReady(st).(firstReady := false), InitialRoute);
    case Reply(id, ok, result) => ReplyJobs(st, id, ok, result);
    case _ =>
  }

  lemma ConnectJobs(st: State, endpoint: Option<Option<string>>)
    ensures st.jobs <= ConnectTo(st, endpoint).jobs
  {
    hide RejectReady;
    ReadyJobs(st.(booted := true, timer := None));
  }

  lemma SubscriptionJobs(st: State, name: string, callback: nat)
    ensures st.jobs <= SubscribeTo(st, name, callback).jobs
    ensures st.jobs == UnsubscribeFrom(st, name, callback).jobs
  {
    hide Subscribers;
  }

  lemma RouteJobs(st: State, path: string)
    ensures DeliverRoute(st, path).jobs == st.jobs
  {
    hide Subscribers;
  }

  lemma CallJobs(st: State, call: nat, outcome: Outcome)
    ensures ContinueCall(st, call).jobs == st.jobs && Settle(st, call, outcome).jobs == st.jobs
  {
  }

  lemma TakenJobs(st: State)
    requires st.jobs != []
    ensures RunFirstJob(st).jobs == st.jobs[1..]
  {
    hide ContinueCall;
    hide Settle;
    hide DeliverRoute;
    var rest := TakeJob(st);
    match st.jobs[0]
    case Continue(call) => CallJobs(rest, call, NotReady);
    case Refuse(call) => CallJobs(rest, call, NotReady);
    case Deliver(path) =>
      if path.Some? {
        RouteJobs(rest, path.value);
      }
    case Replay(_, _) =>
    case Adopt(_) =>
  }

  /** A turn of the queue takes its first job; everything else adds at its end. */
  lemma StepJobs(st: State, event: Event)
    requires Enabled(st, event)
    ensures event == RunJob ==> Step(st, event).jobs == st.jobs[1..]
    ensures event != RunJob ==> st.jobs <= Step(st, event).jobs
  {
    hide ConnectTo;
    hide HandleMessage;
    hide InvokeAs;
    hide SubscribeTo;
    hide UnsubscribeFrom;
    hide DeliverRoute;
    hide RunFirstJob;
    match event
    case Connect(endpoint) => ConnectJobs(st, endpoint);
    case Receive(message) => MessageJobs(st, message);
    case Invoke => InvokeJobs(st, Ordinary);
    case RefreshTick => InvokeJobs(st, TokenRefresh);
    case Subscribe(name, callback) => SubscriptionJobs(st, name, callback);
    case Unsubscribe(name, callback) => SubscriptionJobs(st, name, callback);
    case DeepLink(path) => RouteJobs(st, path);
    case RunJob => TakenJobs(st);
    case _ =>
  }

  /** How many turns of the queue a run has. */
  function Turns(events: seq<Event>): nat {
    if events == [] then 0 else (if events[0] == RunJob then 1 else 0) + Turns(events[1..])
  }

  /** After some turns, what stood in the queue stands that many places further to
      the front. */
  lemma {:induction false} FirstInFirstOut(st: State, events: seq<Event>)
    requires IsRun(st, events) && Turns(events) <= |st.jobs|
    ensures st.jobs[Turns(events)..] <= After(st, events).jobs
    decreases |events|
  {
    hide Step;
    hide Enabled;
    if events != [] {
      StepJobs(st, events[0]);
      var next := Step(st, events[0]);
      if events[0] == RunJob {
        assert IsRun(st, events) ==> Enabled(st, events[0]);
        FirstInFirstOut(next, events[1..]);
        assert st.jobs[1..][Turns(events[1..])..] == st.jobs[Turns(events)..];
      } else {
        FirstInFirstOut(next, events[1..]);
        assert st.jobs[Turns(events)..] <= next.jobs[Turns(events)..];
      }
    }
  }

  // ----- What a reply leads to -----

  /** A launch route arrives: it goes to the subscribers of `navigate`, or is held
      for the first one if there are none. */
  ghost predicate RouteArrives(before: State, after: State, path: string) {
    && after.past.routes == before.past.routes + 1
    && if "navigate" in before.listeners && before.listeners["navigate"] != {} then
         && after.past.dispatched == before.past.dispatched + [before.past.routes]
         && after.heldRoute == before.heldRoute
       else
         && after.past.dispatched == before.past.dispatched
         && after.heldRoute == Some(Route(before.past.routes, path))
  }

  ghost predicate NoRouteArrives(before: State, after: State) {
    && after.past.routes == before.past.routes
    && after.past.dispatched == before.past.dispatched
    && after.heldRoute == before.heldRoute
  }

  lemma DeliverRuns(st: State, path: Option<string>)
    requires st.jobs != [] && st.jobs[0] == Deliver(path)
    ensures var next := Step(st, RunJob);
            && next.currentToken == st.currentToken
            && if path == None || path == Some("") then NoRouteArrives(st, next)
               else RouteArrives(st, next, path.value)
  {
  }

  lemma AdoptRuns(st: State, token: string)
    requires st.jobs != [] && st.jobs[0] == Adopt(token)
    ensures Step(st, RunJob).currentToken == Some(token) && NoRouteArrives(st, Step(st, RunJob))
  {
  }

  lemma DeepLinkArrives(st: State, path: string)
    ensures path != "" ==> RouteArrives(st, Step(st, DeepLink(path)), path)
    ensures path == "" ==> Step(st, DeepLink(path)) == st
  {
  }

  /** The reply to a call, and what it puts in the queue. */
  lemma ReplyQueues(st: State, w: Waiter, ok: bool, result: Option<string>)
    requires Inv(st) && st.socket != NoSocket && w in st.pending && w.call < |st.past.purposes|
    ensures var next := Step(st, Receive(Reply(w.id, ok, result)));
            && next.currentToken == st.currentToken && NoRouteArrives(st, next)
            && next.jobs == st.jobs
                            + match st.past.purposes[w.call] {
                                case Ordinary => []
                                case InitialRoute => if ok then [Deliver(result)] else []
                                case TokenRefresh => if ok && result.Some? then [Adopt(result.value)] else []
                              }
  {
    hide Balanced;
    hide ConnectionInv;
    hide RouteInv;
    FindsTheWaiter(st.past.numbered, st.nextId, st.pending, w);
  }

  /** The reply to the call for the launch route leaves the token as it is, and is
      acted on once the jobs before it have run: the path it carries then arrives. */
  lemma InitialRouteArrives(st: State, w: Waiter, path: string, events: seq<Event>)
    requires Inv(st) && st.socket != NoSocket && w in st.pending && w.call < |st.past.purposes|
    requires st.past.purposes[w.call] == InitialRoute && path != ""
    requires var replied := Step(st, Receive(Reply(w.id, true, Some(path))));
             IsRun(replied, events) && Turns(events) == |st.jobs|
    ensures var replied := Step(st, Receive(Reply(w.id, true, Some(path))));
            var before := After(replied, events);
            && replied.currentToken == st.currentToken && NoRouteArrives(st, replied)
            && Enabled(before, RunJob)
            && Step(before, RunJob).currentToken == before.currentToken
            && RouteArrives(before, Step(before, RunJob), path)
  {
    hide Inv;
    hide Step;
    hide IsRun;
    hide After;
    hide RouteArrives;
    hide NoRouteArrives;
    ReplyQueues(st, w, true, Some(path));
    var replied := Step(st, Receive(Reply(w.id, true, Some(path))));
    FirstInFirstOut(replied, events);
    assert replied.jobs[|st.jobs|..] == [Deliver(Some(path))];
    DeliverRuns(After(replied, events), Some(path));
  }

  /** A refreshed token becomes the current one once the jobs before it have run,
      and is no route. */
  lemma TokenIsAdopted(st: State, w: Waiter, token: string, events: seq<Event>)
    requires Inv(st) && st.socket != NoSocket && w in st.pending && w.call < |st.past.purposes|
    requires st.past.purposes[w.call] == TokenRefresh
    requires var replied := Step(st, Receive(Reply(w.id, true, Some(token))));
             IsRun(replied, events) && Turns(events) == |st.jobs|
    ensures var replied := Step(st, Receive(Reply(w.id, true, Some(token))));
            var before := After(replied, events);
            && replied.currentToken == st.currentToken && NoRouteArrives(st, replied)
            && Enabled(before, RunJob)
            && Step(before, RunJob).currentToken == Some(token)
            && NoRouteArrives(before, Step(before, RunJob))
  {
    hide Inv;
    hide Step;
    hide IsRun;
    hide After;
    hide NoRouteArrives;
    ReplyQueues(st, w, true, Some(token));
    var replied := Step(st, Receive(Reply(w.id, true, Some(token))));
    FirstInFirstOut(replied, events);
    assert replied.jobs[|st.jobs|..] == [Adopt(token)];
    AdoptRuns(After(replied, events), token);
  }

  /** Any other reply, and a reply to no call, has no further effect. */
  lemma OtherRepliesEnd(st: State, id: nat, ok: bool, result: Option<string>)
    requires Inv(st) && st.socket != NoSocket
    requires forall w | w in st.pending && w.id == id ::
               w.call < |st.past.purposes|
               && (st.past.purposes[w.call] == Ordinary || !ok
                   || (st.past.purposes[w.call] == TokenRefresh && result == None))
    ensures var next := Step(st, Receive(Reply(id, ok, result)));
            next.jobs == st.jobs && next.currentToken == st.currentToken && NoRouteArrives(st, next)
  {
    hide Inv;
    var k := Find(st.pending, id);
    if k < |st.pending| {
      hide Step;
      hide NoRouteArrives;
      assert st.pending[k] in st.pending;
      ReplyQueues(st, st.pending[k], ok, result);
      assert st.jobs + [] == st.jobs;
    }
  }

  /** The first subscriber to `navigate` gets the held route, once the jobs before it
      have run; it is held no longer. A subscriber to anything else leaves it. */
  lemma HeldRouteReplayed(st: State, event: string, callback: nat)
    ensures var next := Step(st, Subscribe(event, callback));
            if event == "navigate" && st.heldRoute.Some? then
              && next.jobs == st.jobs + [Replay(callback, st.heldRoute.value)]
              && next.heldRoute == None
              && next.past.replayed == st.past.replayed + [st.heldRoute.value.number]
            else
              next.jobs == st.jobs && next.heldRoute == st.heldRoute && next.past.replayed == st.past.replayed
  {
    hide Subscribers;
  }
}
