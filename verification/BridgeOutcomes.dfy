/** How calls end: refused only when the ready promise was rejected, and sent, or
    turned down for want of a socket, only once it was resolved. */
module BridgeOutcomes {
  import opened Basics
  import opened BridgeModel

  ghost predicate JobsFollow(ready: Ready, jobs: seq<Job>) {
    forall k | 0 <= k < |jobs| :: JobFollows(ready, jobs[k])
  }

  ghost predicate JobFollows(ready: Ready, job: Job) {
    (job.Continue? ==> ready == Resolved) && (job.Refuse? ==> ready == Rejected)
  }

  ghost predicate Ended(ready: Ready, s: Settlement) {
    ready == if s.outcome.NotReady? then Rejected else Resolved
  }

  /** Calls wait while the promise is unsettled, and then follow it. */
  ghost predicate Follows(ready: Ready, waiting: seq<nat>, jobs: seq<Job>, settlements: seq<Settlement>, unsent: bool) {
    && (waiting != [] ==> ready == Unsettled)
    && JobsFollow(ready, jobs)
    && (forall k | 0 <= k < |settlements| :: Ended(ready, settlements[k]))
    && (unsent || ready == Resolved)
  }

  ghost predicate FollowsReady(st: State) {
    Follows(st.ready, st.waiting, st.jobs, st.past.settlements, st.past.numbered == [] && st.pending == [])
  }

  lemma JobAdded(ready: Ready, waiting: seq<nat>, jobs: seq<Job>, settlements: seq<Settlement>, unsent: bool, job: Job)
    requires Follows(ready, waiting, jobs, settlements, unsent) && JobFollows(ready, job)
    ensures Follows(ready, waiting, jobs + [job], settlements, unsent)
  {
    hide JobFollows;
    hide Ended;
  }

  lemma CallWaits(waiting: seq<nat>, jobs: seq<Job>, settlements: seq<Settlement>, unsent: bool, call: nat)
    requires Follows(Unsettled, waiting, jobs, settlements, unsent)
    ensures Follows(Unsettled, waiting + [call], jobs, settlements, unsent)
  {
    hide JobFollows;
    hide Ended;
  }

  lemma NoneEnded(settlements: seq<Settlement>)
    requires forall k | 0 <= k < |settlements| :: Ended(Unsettled, settlements[k])
    ensures settlements == []
  {
    assert settlements != [] ==> !Ended(Unsettled, settlements[0]);
  }

  lemma {:induction false} MappedJobs(calls: seq<nat>)
    ensures JobsFollow(Resolved, MapContinue(calls)) && JobsFollow(Rejected, MapRefuse(calls))
    ensures calls == [] ==> MapContinue(calls) == [] && MapRefuse(calls) == []
  {
    if calls != [] {
      MappedJobs(calls[1..]);
    }
  }

  lemma SettleReadyFollows(st: State)
    requires FollowsReady(st)
    ensures FollowsReady(ResolveReady(st)) && FollowsReady(RejectReady(st))
  {
    hide MapContinue;
    hide MapRefuse;
    MappedJobs(st.waiting);
    if st.ready == Unsettled {
      NoneEnded(st.past.settlements);
      assert forall k | 0 <= k < |st.jobs| :: JobFollows(st.ready, st.jobs[k]);
      hide Ended;
    }
  }

  lemma InvokeFollows(st: State, purpose: Purpose)
    requires FollowsReady(st)
    ensures FollowsReady(InvokeAs(st, purpose))
  {
    hide Follows;
    var call, unsent := |st.past.purposes|, st.past.numbered == [] && st.pending == [];
    match st.ready
    case Unsettled => CallWaits(st.waiting, st.jobs, st.past.settlements, unsent, call);
    case Resolved => JobAdded(Resolved, st.waiting, st.jobs, st.past.settlements, unsent, Continue(call));
    case Rejected => JobAdded(Rejected, st.waiting, st.jobs, st.past.settlements, unsent, Refuse(call));
  }

  lemma FollowUpFollows(st: State, call: nat, ok: bool, result: Option<string>)
    ensures JobsFollow(st.ready, FollowUp(st, call, ok, result))
  {
  }

  lemma ReplyFollows(st: State, id: nat, ok: bool, result: Option<string>)
    requires FollowsReady(st)
    ensures FollowsReady(HandleReply(st, id, ok, result))
  {
    hide FollowUp;
    hide Find;
    hide JobFollows;
    var k := Find(st.pending, id);
    if k < |st.pending| {
      FollowUpFollows(st, st.pending[k].call, ok, result);
    }
  }

  /** The parts of the state that calls follow. */
  ghost predicate SameCalls(a: State, b: State) {
    && b.ready == a.ready && b.waiting == a.waiting && b.jobs == a.jobs && b.pending == a.pending
    && b.past.settlements == a.past.settlements && b.past.numbered == a.past.numbered
  }

  lemma SameCallsFollow(a: State, b: State)
    requires FollowsReady(a) && SameCalls(a, b)
    ensures FollowsReady(b)
  {
    hide JobFollows;
    hide Ended;
  }

  lemma MessageFollows(st: State, message: Message)
    requires FollowsReady(st)
    ensures FollowsReady(HandleMessage(st, message))
  {
    hide FollowsReady;
    hide ResolveReady;
    hide RejectReady;
    hide InvokeAs;
    hide HandleReply;
    SettleReadyFollows(st);
    match message
    case ReadyMessage =>
      var resolved := ResolveReady(st);
      SameCallsFollow(resolved, resolved.(firstReady := false));
      InvokeFollows(resolved.(firstReady := false), InitialRoute);
      var invoked := InvokeAs(resolved.(firstReady := false), InitialRoute);
      SameCallsFollow(invoked, invoked.(refreshing := true));
    case Reply(id, ok, result) => ReplyFollows(st, id, ok, result);
    case _ =>
  }

  lemma ConnectFollows(st: State, endpoint: Option<Option<string>>)
    requires FollowsReady(st)
    ensures FollowsReady(ConnectTo(st, endpoint))
  {
    hide FollowsReady;
    hide RejectReady;
    var st' := st.(booted := true, timer := None);
    SameCallsFollow(st, st');
    SettleReadyFollows(st');
    if endpoint.Some? {
      SameCallsFollow(st', NewSocket(st', endpoint.value));
    }
  }

  lemma SocketFollows(st: State)
    requires FollowsReady(st)
    ensures FollowsReady(HandleOpen(st)) && FollowsReady(HandleClose(st)) && FollowsReady(st.(socket := Closing))
  {
    hide FollowsReady;
    SameCallsFollow(st, HandleOpen(st));
    SameCallsFollow(st, HandleClose(st));
    SameCallsFollow(st, st.(socket := Closing));
  }

  lemma RouteFollows(st: State, path: string)
    requires FollowsReady(st)
    ensures FollowsReady(DeliverRoute(st, path))
  {
    hide FollowsReady;
    hide Subscribers;
    SameCallsFollow(st, DeliverRoute(st, path));
  }

  lemma SubscriptionFollows(st: State, name: string, callback: nat)
    requires FollowsReady(st)
    ensures FollowsReady(SubscribeTo(st, name, callback)) && FollowsReady(UnsubscribeFrom(st, name, callback))
  {
    hide Subscribers;
    hide Follows;
    if st.heldRoute.Some? {
      var unsent := st.past.numbered == [] && st.pending == [];
      JobAdded(st.ready, st.waiting, st.jobs, st.past.settlements, unsent, Replay(callback, st.heldRoute.value));
    }
  }

  lemma SettleFollows(st: State, call: nat, outcome: Outcome)
    requires FollowsReady(st) && st.ready == if outcome.NotReady? then Rejected else Resolved
    ensures FollowsReady(Settle(st, call, outcome))
  {
    hide JobFollows;
  }

  lemma ContinueFollows(st: State, call: nat)
    requires FollowsReady(st) && st.ready == Resolved
    ensures FollowsReady(ContinueCall(st, call))
  {
    hide JobFollows;
    hide Ended;
    var past := st.past.(numbered := st.past.numbered + [Waiter(st.nextId, call)]);
    var numbered := st.(nextId := st.nextId + 1, past := past);
    SettleFollows(numbered, call, NotConnected);
    hide Settle;
  }

  lemma JobFollowed(st: State)
    requires FollowsReady(st) && st.jobs != []
    ensures FollowsReady(RunFirstJob(st))
  {
    hide ContinueCall;
    hide Settle;
    hide DeliverRoute;
    hide Ended;
    var rest := TakeJob(st);
    assert JobFollows(st.ready, st.jobs[0]);
    assert FollowsReady(rest);
    hide FollowsReady;
    match st.jobs[0]
    case Continue(call) => ContinueFollows(rest, call);
    case Refuse(call) => SettleFollows(rest, call, NotReady);
    case Deliver(path) =>
      if path.Some? {
        RouteFollows(rest, path.value);
      }
    case Replay(_, _) =>
    case Adopt(token) => SameCallsFollow(rest, AdoptToken(rest, token));
  }

  lemma StepFollows(st: State, event: Event)
    requires Enabled(st, event) && FollowsReady(st)
    ensures FollowsReady(Step(st, event))
  {
    hide FollowsReady;
    hide ConnectTo;
    hide HandleOpen;
    hide HandleClose;
    hide HandleMessage;
    hide InvokeAs;
    hide SubscribeTo;
    hide UnsubscribeFrom;
    hide DeliverRoute;
    hide RunFirstJob;
    match event
    case Connect(endpoint) => ConnectFollows(st, endpoint);
    case Opened => SocketFollows(st);
    case Failing => SocketFollows(st);
    case Closed => SocketFollows(st);
    case Receive(message) => MessageFollows(st, message);
    case Invoke => InvokeFollows(st, Ordinary);
    case RefreshTick => InvokeFollows(st, TokenRefresh);
    case Subscribe(name, callback) => SubscriptionFollows(st, name, callback);
    case Unsubscribe(name, callback) => SubscriptionFollows(st, name, callback);
    case DeepLink(path) => RouteFollows(st, path);
    case RunJob => JobFollowed(st);
  }

  lemma {:induction false} FollowsInRun(st: State, events: seq<Event>)
    requires FollowsReady(st) && IsRun(st, events)
    ensures FollowsReady(After(st, events))
    decreases |events|
  {
    hide FollowsReady;
    hide Step;
    hide Enabled;
    if events != [] {
      StepFollows(st, events[0]);
      FollowsInRun(Step(st, events[0]), events[1..]);
    }
  }

  /** Over every run: a call ends as not ready only after the promise was rejected,
      and otherwise only after it was resolved; so does a call get its id. */
  lemma OutcomesFollowReady(events: seq<Event>)
    requires IsRun(INITIAL, events)
    ensures var st := After(INITIAL, events);
            && (forall k | 0 <= k < |st.past.settlements| ::
                  st.ready == if st.past.settlements[k].outcome.NotReady? then Rejected else Resolved)
            && (st.past.numbered != [] || st.pending != [] ==> st.ready == Resolved)
            && (st.waiting != [] ==> st.ready == Unsettled)
  {
    hide IsRun;
    hide After;
    FollowsInRun(INITIAL, events);
    var st := After(INITIAL, events);
    assert forall k | 0 <= k < |st.past.settlements| :: Ended(st.ready, st.past.settlements[k]);
  }
}
