/** Calls go out in the order in which they were issued, whatever waits for ready,
    is refused, or finds the socket down in between. */
module BridgeOrder {
  import opened Basics
  import opened BridgeModel
  import opened BridgeTheorems

  /** The calls about to run, in order. */
  function Queued(jobs: seq<Job>): seq<nat> {
    if jobs == [] then []
    else (if jobs[0].Continue? then [jobs[0].call] else []) + Queued(jobs[1..])
  }

  function CallsOf(numbered: seq<Waiter>): seq<nat> {
    if numbered == [] then [] else CallsOf(numbered[..|numbered| - 1]) + [numbered[|numbered| - 1].call]
  }

  /** Calls with an id, then calls about to run, then calls that wait for ready. */
  function Line(numbered: seq<Waiter>, jobs: seq<Job>, waiting: seq<nat>): seq<nat> {
    CallsOf(numbered) + Queued(jobs) + waiting
  }

  /** In the order of issue, and issued. */
  ghost predicate Ascending(calls: seq<nat>, issued: nat) {
    && (forall i, j | 0 <= i < j < |calls| :: calls[i] < calls[j])
    && (forall i | 0 <= i < |calls| :: calls[i] < issued)
  }

  ghost predicate OrderInv(st: State) {
    && Ascending(Line(st.past.numbered, st.jobs, st.waiting), |st.past.purposes|)
    && (st.ready != Unsettled ==> st.waiting == [])
  }

  lemma {:induction false} QueuedConcat(a: seq<Job>, b: seq<Job>)
    ensures Queued(a + b) == Queued(a) + Queued(b)
  {
    if a == [] {
      assert a + b == b;
    } else {
      assert (a + b)[0] == a[0] && (a + b)[1..] == a[1..] + b;
      QueuedConcat(a[1..], b);
      Associative(if a[0].Continue? then [a[0].call] else [], Queued(a[1..]), Queued(b));
    }
  }

  lemma {:induction false} QueuedWaiters(calls: seq<nat>)
    ensures Queued(MapContinue(calls)) == calls && Queued(MapRefuse(calls)) == []
  {
    if calls != [] {
      QueuedWaiters(calls[1..]);
      QueuedConcat([Continue(calls[0])], MapContinue(calls[1..]));
      QueuedConcat([Refuse(calls[0])], MapRefuse(calls[1..]));
      QueuedOne(calls[0]);
    }
  }

  lemma QueuedOne(call: nat)
    ensures Queued([Continue(call)]) == [call] && Queued([Refuse(call)]) == []
  {
    assert [Continue(call)][1..] == [] && [Refuse(call)][1..] == [];
  }

  lemma QueuedOther(job: Job)
    requires !job.Continue?
    ensures Queued([job]) == []
  {
    assert [job][1..] == [];
  }

  lemma QueuedTaken(jobs: seq<Job>)
    requires jobs != []
    ensures Queued(jobs) == Queued([jobs[0]]) + Queued(jobs[1..])
  {
    assert jobs == [jobs[0]] + jobs[1..];
    QueuedConcat([jobs[0]], jobs[1..]);
  }

  lemma AscendingPrefix(a: seq<nat>, b: seq<nat>, n: nat)
    requires Ascending(a + b, n)
    ensures Ascending(a, n)
  {
    assert forall i | 0 <= i < |a| :: (a + b)[i] == a[i];
  }

  lemma AscendingSnoc(a: seq<nat>, n: nat)
    requires Ascending(a, n)
    ensures Ascending(a + [n], n + 1) && Ascending(a, n + 1)
  {
  }

  // ----- The handlers -----

  lemma ResolveKeepsOrder(st: State)
    requires OrderInv(st)
    ensures OrderInv(ResolveReady(st))
  {
    hide Ascending;
    hide CallsOf;
    hide Queued;
    QueuedWaiters(st.waiting);
    QueuedConcat(st.jobs, MapContinue(st.waiting));
    MovedUp(CallsOf(st.past.numbered), Queued(st.jobs), st.waiting);
  }

  lemma MovedUp(a: seq<nat>, b: seq<nat>, c: seq<nat>)
    ensures a + b + c == a + (b + c) + []
  {
  }

  lemma RejectKeepsOrder(st: State)
    requires OrderInv(st)
    ensures OrderInv(RejectReady(st))
  {
    hide Ascending;
    hide CallsOf;
    hide Queued;
    QueuedWaiters(st.waiting);
    QueuedConcat(st.jobs, MapRefuse(st.waiting));
    var a, b := CallsOf(st.past.numbered), Queued(st.jobs);
    AscendingPrefix(a + b, st.waiting, |st.past.purposes|);
    MovedUp(a, b, []);
    assert a + b + [] == a + b;
  }

  lemma LineGrows(numbered: seq<Waiter>, jobs: seq<Job>, waiting: seq<nat>, call: nat)
    ensures Line(numbered, jobs, waiting + [call]) == Line(numbered, jobs, waiting) + [call]
    ensures Line(numbered, jobs + [Continue(call)], []) == Line(numbered, jobs, []) + [call]
    ensures Line(numbered, jobs + [Refuse(call)], waiting) == Line(numbered, jobs, waiting)
  {
    hide CallsOf;
    hide Queued;
    QueuedConcat(jobs, [Continue(call)]);
    QueuedConcat(jobs, [Refuse(call)]);
    QueuedOne(call);
  }

  lemma InvokeKeepsOrder(st: State, purpose: Purpose)
    requires OrderInv(st)
    ensures OrderInv(InvokeAs(st, purpose))
  {
    hide Ascending;
    hide Line;
    var n := |st.past.purposes|;
    LineGrows(st.past.numbered, st.jobs, st.waiting, n);
    AscendingSnoc(Line(st.past.numbered, st.jobs, st.waiting), n);
  }

  lemma LineWithout(numbered: seq<Waiter>, jobs: seq<Job>, waiting: seq<nat>, more: seq<Job>)
    requires Queued(more) == []
    ensures Line(numbered, jobs + more, waiting) == Line(numbered, jobs, waiting)
  {
    hide CallsOf;
    hide Queued;
    QueuedConcat(jobs, more);
  }

  /** Everything the order reads is left alone, but for jobs that are no calls. */
  lemma SameOrder(a: State, b: State, more: seq<Job>)
    requires OrderInv(a) && b.ready == a.ready && b.waiting == a.waiting && b.jobs == a.jobs + more
    requires b.past.numbered == a.past.numbered && b.past.purposes == a.past.purposes && Queued(more) == []
    ensures OrderInv(b)
  {
    hide Ascending;
    hide Line;
    LineWithout(a.past.numbered, a.jobs, a.waiting, more);
  }

  lemma NothingMore(jobs: seq<Job>)
    ensures jobs + [] == jobs && Queued([]) == []
  {
  }

  lemma ReplyKeepsOrder(st: State, id: nat, ok: bool, result: Option<string>)
    requires OrderInv(st)
    ensures OrderInv(HandleReply(st, id, ok, result))
  {
    hide OrderInv;
    hide FollowUp;
    var k := Find(st.pending, id);
    if k < |st.pending| {
      var more := FollowUp(st, st.pending[k].call, ok, result);
      FollowUpIsNoCall(st, st.pending[k].call, ok, result);
      SameOrder(st, HandleReply(st, id, ok, result), more);
    }
  }

  lemma FollowUpIsNoCall(st: State, call: nat, ok: bool, result: Option<string>)
    ensures Queued(FollowUp(st, call, ok, result)) == []
  {
  }

  lemma FlagsKeepOrder(st: State)
    requires OrderInv(st)
    ensures OrderInv(st.(firstReady := false)) && OrderInv(st.(refreshing := true))
    ensures OrderInv(st.(booted := true, timer := None))
  {
    hide Ascending;
    hide Line;
  }

  lemma MessageKeepsOrder(st: State, message: Message)
    requires OrderInv(st)
    ensures OrderInv(HandleMessage(st, message))
  {
    hide OrderInv;
    hide InvokeAs;
    hide HandleReply;
    hide ResolveReady;
    hide RejectReady;
    match message
    case ReadyMessage =>
      ResolveKeepsOrder(st);
      var resolved := ResolveReady(st);
      if resolved.firstReady {
        FlagsKeepOrder(resolved);
        InvokeKeepsOrder(resolved.(firstReady := false), InitialRoute);
        FlagsKeepOrder(InvokeAs(resolved.(firstReady := false), InitialRoute));
      }
    case Reply(id, ok, result) => ReplyKeepsOrder(st, id, ok, result);
    case ErrorMessage => RejectKeepsOrder(st);
    case _ =>
  }

  lemma ConnectKeepsOrder(st: State, endpoint: Option<Option<string>>)
    requires OrderInv(st)
    ensures OrderInv(ConnectTo(st, endpoint))
  {
    hide OrderInv;
    hide RejectReady;
    FlagsKeepOrder(st);
    if endpoint == None {
      RejectKeepsOrder(st.(booted := true, timer := None));
    } else {
      NothingMore(st.jobs);
      SameOrder(st, ConnectTo(st, endpoint), []);
    }
  }

  lemma SubscribeKeepsOrder(st: State, name: string, callback: nat)
    requires OrderInv(st)
    ensures OrderInv(SubscribeTo(st, name, callback))
  {
    hide OrderInv;
    NothingMore(st.jobs);
    if name == NAVIGATE && st.heldRoute.Some? {
      var replay := Replay(callback, st.heldRoute.value);
      QueuedOther(replay);
      SameOrder(st, SubscribeTo(st, name, callback), [replay]);
    } else {
      SameOrder(st, SubscribeTo(st, name, callback), []);
    }
  }

  lemma FirstInLine(numbered: seq<Waiter>, jobs: seq<Job>, waiting: seq<nat>, w: Waiter)
    requires jobs != [] && jobs[0] == Continue(w.call)
    ensures Line(numbered + [w], jobs[1..], waiting) == Line(numbered, jobs, waiting)
  {
    assert (numbered + [w])[..|numbered|] == numbered;
    assert CallsOf(numbered + [w]) == CallsOf(numbered) + [w.call];
    QueuedTaken(jobs);
    QueuedOne(w.call);
    hide CallsOf;
    hide Queued;
  }

  lemma NotInLine(numbered: seq<Waiter>, jobs: seq<Job>, waiting: seq<nat>)
    requires jobs != [] && !jobs[0].Continue?
    ensures Line(numbered, jobs[1..], waiting) == Line(numbered, jobs, waiting)
  {
    hide CallsOf;
    hide Queued;
    QueuedTaken(jobs);
    QueuedOther(jobs[0]);
  }

  lemma ContinueKeepsOrder(st: State, call: nat)
    requires OrderInv(st) && st.jobs != [] && st.jobs[0] == Continue(call)
    ensures OrderInv(ContinueCall(TakeJob(st), call))
  {
    hide Ascending;
    hide Line;
    hide ContinueCall;
    ContinueFrame(TakeJob(st), call);
    ContinueKeepsPurposes(TakeJob(st), call);
    FirstInLine(st.past.numbered, st.jobs, st.waiting, Waiter(st.nextId, call));
  }

  lemma TakeKeepsOrder(st: State)
    requires OrderInv(st) && st.jobs != [] && !st.jobs[0].Continue?
    ensures OrderInv(TakeJob(st))
  {
    hide Ascending;
    hide Line;
    NotInLine(st.past.numbered, st.jobs, st.waiting);
  }

  lemma DeliverKeepsOrder(st: State, path: string)
    requires OrderInv(st)
    ensures OrderInv(DeliverRoute(st, path))
  {
    hide OrderInv;
    hide DeliverRoute;
    DeliverFrame(st, path);
    NothingMore(st.jobs);
    SameOrder(st, DeliverRoute(st, path), []);
  }

  lemma JobKeepsOrder(st: State)
    requires OrderInv(st) && st.jobs != []
    ensures OrderInv(RunFirstJob(st))
  {
    hide OrderInv;
    hide TakeJob;
    hide ContinueCall;
    hide DeliverRoute;
    if st.jobs[0].Continue? {
      ContinueKeepsOrder(st, st.jobs[0].call);
    } else {
      var rest := TakeJob(st);
      TakeKeepsOrder(st);
      NothingMore(rest.jobs);
      match st.jobs[0]
      case Refuse(call) => SameOrder(rest, Settle(rest, call, NotReady), []);
      case Deliver(path) =>
        if path.Some? {
          DeliverKeepsOrder(rest, path.value);
        }
      case Replay(_, _) =>
      case Adopt(token) => SameOrder(rest, AdoptToken(rest, token), []);
    }
  }

  lemma QuietKeepsOrder(st: State, event: Event)
    requires OrderInv(st) && Enabled(st, event) && (IsQuiet(event) || event.Opened?)
    ensures OrderInv(Step(st, event))
  {
    hide OrderInv;
    hide Step;
    QuietStep(st, event);
    NothingMore(st.jobs);
    SameOrder(st, Step(st, event), []);
  }

  lemma StepKeepsOrder(st: State, event: Event)
    requires OrderInv(st) && Enabled(st, event)
    ensures OrderInv(Step(st, event))
  {
    hide OrderInv;
    hide InvokeAs;
    hide HandleMessage;
    hide RunFirstJob;
    hide ConnectTo;
    hide SubscribeTo;
    hide HandleOpen;
    hide HandleClose;
    hide DeliverRoute;
    hide UnsubscribeFrom;
    match event
    case Receive(message) => MessageKeepsOrder(st, message);
    case Invoke => InvokeKeepsOrder(st, Ordinary);
    case RefreshTick => InvokeKeepsOrder(st, TokenRefresh);
    case RunJob => JobKeepsOrder(st);
    case Connect(endpoint) => ConnectKeepsOrder(st, endpoint);
    case Subscribe(name, callback) => SubscribeKeepsOrder(st, name, callback);
    case _ => QuietKeepsOrder(st, event);
  }

  lemma {:induction false} OrderAlways(st: State, events: seq<Event>)
    requires OrderInv(st) && IsRun(st, events)
    ensures OrderInv(After(st, events))
    decreases |events|
  {
    hide Step;
    hide OrderInv;
    if events != [] {
      StepKeepsOrder(st, events[0]);
      OrderAlways(Step(st, events[0]), events[1..]);
    }
  }

  lemma {:induction false} CallsOfAt(numbered: seq<Waiter>, k: nat)
    requires k < |numbered|
    ensures |CallsOf(numbered)| == |numbered| && CallsOf(numbered)[k] == numbered[k].call
    decreases |numbered|
  {
    var n := |numbered| - 1;
    if k < n {
      CallsOfAt(numbered[..n], k);
    } else if n > 0 {
      CallsOfAt(numbered[..n], 0);
    }
  }

  lemma NumberedInOrder(st: State)
    requires OrderInv(st)
    ensures var numbered := st.past.numbered;
            forall i, j | 0 <= i < j < |numbered| :: numbered[i].call < numbered[j].call
  {
    hide CallsOf;
    hide Queued;
    var calls, rest := CallsOf(st.past.numbered), Queued(st.jobs) + st.waiting;
    assert Line(st.past.numbered, st.jobs, st.waiting) == calls + rest;
    AscendingPrefix(calls, rest, |st.past.purposes|);
    forall i, j | 0 <= i < j < |st.past.numbered|
      ensures st.past.numbered[i].call < st.past.numbered[j].call
    {
      CallsOfAt(st.past.numbered, i);
      CallsOfAt(st.past.numbered, j);
    }
  }

  lemma OrderAtFirst()
    ensures OrderInv(INITIAL)
  {
    assert Line([], [], []) == [];
  }

  /** Over every run, calls are given their ids in the order in which they were
      issued; and an invoke waits for ready only while ready has not settled. */
  lemma CallsGoOutInOrder(events: seq<Event>)
    requires IsRun(INITIAL, events)
    ensures var st := After(INITIAL, events); var numbered := st.past.numbered;
            && (forall i, j | 0 <= i < j < |numbered| :: numbered[i].call < numbered[j].call)
            && (st.ready != Unsettled ==> st.waiting == [])
  {
    hide After;
    hide IsRun;
    hide Line;
    hide Ascending;
    OrderAtFirst();
    OrderAlways(INITIAL, events);
    NumberedInOrder(After(INITIAL, events));
  }
}
