/** What holds over every run of the bridge client. */
module BridgeTheorems {
  import opened Basics
  import opened BridgeModel

  // ----- Where the calls are -----

  function JobCalls(jobs: seq<Job>): multiset<nat> {
    if jobs == [] then multiset{}
    else
      (match jobs[0]
       case Continue(call) => multiset{call}
       case Refuse(call) => multiset{call}
       case _ => multiset{})
      + JobCalls(jobs[1..])
  }

  function PendingCalls(pending: seq<Waiter>): multiset<nat> {
    if pending == [] then multiset{} else multiset{pending[0].call} + PendingCalls(pending[1..])
  }

  function SettledCalls(settlements: seq<Settlement>): multiset<nat> {
    if settlements == [] then multiset{} else multiset{settlements[0].call} + SettledCalls(settlements[1..])
  }

  /** Every place a call can be in: waiting for ready, about to run, pending, settled. */
  function Places(waiting: seq<nat>, jobs: seq<Job>, pending: seq<Waiter>, settlements: seq<Settlement>): multiset<nat>
  {
    multiset(waiting) + JobCalls(jobs) + PendingCalls(pending) + SettledCalls(settlements)
  }

  function Ledger(st: State): multiset<nat> {
    Places(st.waiting, st.jobs, st.pending, st.past.settlements)
  }

  function Issued(n: nat): multiset<nat> {
    if n == 0 then multiset{} else Issued(n - 1) + multiset{n - 1}
  }

  lemma {:induction false} JobCallsConcat(a: seq<Job>, b: seq<Job>)
    ensures JobCalls(a + b) == JobCalls(a) + JobCalls(b)
  {
    if a == [] {
      assert a + b == b;
    } else {
      assert (a + b)[1..] == a[1..] + b;
      JobCallsConcat(a[1..], b);
    }
  }

  lemma {:induction false} PendingConcat(a: seq<Waiter>, b: seq<Waiter>)
    ensures PendingCalls(a + b) == PendingCalls(a) + PendingCalls(b)
  {
    if a == [] {
      assert a + b == b;
    } else {
      assert (a + b)[1..] == a[1..] + b;
      PendingConcat(a[1..], b);
    }
  }

  lemma {:induction false} SettledSnoc(a: seq<Settlement>, s: Settlement)
    ensures SettledCalls(a + [s]) == SettledCalls(a) + multiset{s.call}
  {
    if a == [] {
      assert a + [s] == [s];
    } else {
      assert (a + [s])[1..] == a[1..] + [s];
      SettledSnoc(a[1..], s);
    }
  }

  lemma {:induction false} ContinueCalls(calls: seq<nat>)
    ensures JobCalls(MapContinue(calls)) == multiset(calls)
  {
    if calls != [] {
      ContinueCalls(calls[1..]);
      JobCallsCons(Continue(calls[0]), MapContinue(calls[1..]));
      assert calls == [calls[0]] + calls[1..];
    }
  }

  lemma {:induction false} RefuseCalls(calls: seq<nat>)
    ensures JobCalls(MapRefuse(calls)) == multiset(calls)
  {
    if calls != [] {
      RefuseCalls(calls[1..]);
      JobCallsCons(Refuse(calls[0]), MapRefuse(calls[1..]));
      assert calls == [calls[0]] + calls[1..];
    }
  }

  lemma JobCallsCons(job: Job, rest: seq<Job>)
    ensures JobCalls([job] + rest) == JobCalls([job]) + JobCalls(rest)
  {
    JobCallsConcat([job], rest);
  }

  lemma PendingRemoved(pending: seq<Waiter>, k: nat)
    requires k < |pending|
    ensures PendingCalls(pending[..k] + pending[k + 1..]) + multiset{pending[k].call} == PendingCalls(pending)
  {
    var a, w, b := pending[..k], pending[k], pending[k + 1..];
    assert pending == a + ([w] + b);
    PendingConcat(a, [w] + b);
    PendingConcat(a, b);
    PendingCons(w, b);
  }

  lemma PendingCons(w: Waiter, rest: seq<Waiter>)
    ensures PendingCalls([w] + rest) == multiset{w.call} + PendingCalls(rest)
  {
    assert ([w] + rest)[1..] == rest;
  }

  lemma JobsAdded(w: seq<nat>, jobs: seq<Job>, p: seq<Waiter>, s: seq<Settlement>, more: seq<Job>)
    ensures Places(w, jobs + more, p, s) == Places(w, jobs, p, s) + JobCalls(more)
  {
    JobCallsConcat(jobs, more);
  }

  lemma WaitersMove(w: seq<nat>, jobs: seq<Job>, p: seq<Waiter>, s: seq<Settlement>)
    ensures Places([], jobs + MapContinue(w), p, s) == Places(w, jobs, p, s)
    ensures Places([], jobs + MapRefuse(w), p, s) == Places(w, jobs, p, s)
  {
    ContinueCalls(w);
    RefuseCalls(w);
    JobCallsConcat(jobs, MapContinue(w));
    JobCallsConcat(jobs, MapRefuse(w));
  }

  lemma OneWaits(w: seq<nat>, jobs: seq<Job>, p: seq<Waiter>, s: seq<Settlement>, call: nat)
    ensures Places(w + [call], jobs, p, s) == Places(w, jobs, p, s) + multiset{call}
  {
  }

  lemma OneSettles(w: seq<nat>, jobs: seq<Job>, p: seq<Waiter>, s: seq<Settlement>, call: nat, outcome: Outcome)
    ensures Places(w, jobs, p, s + [Settlement(call, outcome)]) == Places(w, jobs, p, s) + multiset{call}
  {
    SettledSnoc(s, Settlement(call, outcome));
  }

  lemma OnePends(w: seq<nat>, jobs: seq<Job>, p: seq<Waiter>, s: seq<Settlement>, waiter: Waiter)
    ensures Places(w, jobs, p + [waiter], s) == Places(w, jobs, p, s) + multiset{waiter.call}
  {
    PendingConcat(p, [waiter]);
    assert PendingCalls([waiter]) == multiset{waiter.call};
  }

  lemma OneTaken(w: seq<nat>, jobs: seq<Job>, p: seq<Waiter>, s: seq<Settlement>, k: nat)
    requires k < |p|
    ensures Places(w, jobs, p[..k] + p[k + 1..], s) + multiset{p[k].call} == Places(w, jobs, p, s)
  {
    PendingRemoved(p, k);
  }

  lemma JobTaken(w: seq<nat>, jobs: seq<Job>, p: seq<Waiter>, s: seq<Settlement>)
    requires jobs != []
    ensures Places(w, jobs[1..], p, s) + JobCalls([jobs[0]]) == Places(w, jobs, p, s)
  {
    assert jobs == [jobs[0]] + jobs[1..];
    JobCallsConcat([jobs[0]], jobs[1..]);
  }

  lemma OneJob(call: nat)
    ensures JobCalls([Continue(call)]) == multiset{call} && JobCalls([Refuse(call)]) == multiset{call}
  {
  }

  lemma NoCall(job: Job)
    requires !job.Continue? && !job.Refuse?
    ensures JobCalls([job]) == multiset{}
  {
  }

  lemma ReadyKeepsLedger(st: State)
    ensures Ledger(ResolveReady(st)) == Ledger(st) && Ledger(RejectReady(st)) == Ledger(st)
    ensures ResolveReady(st).past == st.past && RejectReady(st).past == st.past
  {
    hide Places;
    WaitersMove(st.waiting, st.jobs, st.pending, st.past.settlements);
  }

  lemma InvokeAddsOne(st: State, purpose: Purpose)
    ensures var st' := InvokeAs(st, purpose);
            Ledger(st') == Ledger(st) + multiset{|st.past.purposes|}
            && |st'.past.purposes| == |st.past.purposes| + 1
  {
    hide Places;
    hide JobCalls;
    var call := |st.past.purposes|;
    OneJob(call);
    OneWaits(st.waiting, st.jobs, st.pending, st.past.settlements, call);
    JobsAdded(st.waiting, st.jobs, st.pending, st.past.settlements, [Continue(call)]);
    JobsAdded(st.waiting, st.jobs, st.pending, st.past.settlements, [Refuse(call)]);
  }

  lemma ReplyKeepsLedger(st: State, id: nat, ok: bool, result: Option<string>)
    ensures Ledger(HandleReply(st, id, ok, result)) == Ledger(st)
  {
    hide Places;
    hide JobCalls;
    hide FollowUp;
    var k := Find(st.pending, id);
    if k < |st.pending| {
      var call := st.pending[k].call;
      var rest := st.pending[..k] + st.pending[k + 1..];
      OneTaken(st.waiting, st.jobs, st.pending, st.past.settlements, k);
      OneSettles(st.waiting, st.jobs, rest, st.past.settlements, call, Replied(id, ok));
      JobsAdded(st.waiting, st.jobs, rest, st.past.settlements + [Settlement(call, Replied(id, ok))],
                FollowUp(st, call, ok, result));
      FollowUpHasNoCall(st, call, ok, result);
    }
  }

  lemma FollowUpHasNoCall(st: State, call: nat, ok: bool, result: Option<string>)
    ensures JobCalls(FollowUp(st, call, ok, result)) == multiset{}
  {
  }

  /** A call that runs is pending afterwards if the socket is open, else settled. */
  lemma ContinuePlaces(st: State, call: nat)
    ensures var st' := ContinueCall(st, call);
            if st.socket == Open then
              && PendingCalls(st'.pending) == PendingCalls(st.pending) + multiset{call}
              && SettledCalls(st'.past.settlements) == SettledCalls(st.past.settlements)
            else
              && PendingCalls(st'.pending) == PendingCalls(st.pending)
              && SettledCalls(st'.past.settlements) == SettledCalls(st.past.settlements) + multiset{call}
  {
    SettledSnoc(st.past.settlements, Settlement(call, NotConnected));
    PendingConcat(st.pending, [Waiter(st.nextId, call)]);
    assert PendingCalls([Waiter(st.nextId, call)]) == multiset{call};
    hide PendingCalls;
    hide SettledCalls;
  }

  lemma ContinueAddsOne(st: State, call: nat)
    ensures Ledger(ContinueCall(st, call)) == Ledger(st) + multiset{call}
  {
    hide Places;
    OneSettles(st.waiting, st.jobs, st.pending, st.past.settlements, call, NotConnected);
    OnePends(st.waiting, st.jobs, st.pending, st.past.settlements, Waiter(st.nextId, call));
  }

  lemma SettleAddsOne(st: State, call: nat, outcome: Outcome)
    ensures Ledger(Settle(st, call, outcome)) == Ledger(st) + multiset{call}
    ensures Settle(st, call, outcome).past.purposes == st.past.purposes
  {
    hide Places;
    OneSettles(st.waiting, st.jobs, st.pending, st.past.settlements, call, outcome);
  }

  lemma AdoptKeepsLedger(st: State, token: string)
    ensures Ledger(AdoptToken(st, token)) == Ledger(st)
    ensures AdoptToken(st, token).past.purposes == st.past.purposes
  {
    hide Places;
  }

  lemma JobKeepsLedger(st: State)
    requires st.jobs != []
    ensures Ledger(RunFirstJob(st)) == Ledger(st)
    ensures RunFirstJob(st).past.purposes == st.past.purposes
  {
    hide Ledger;
    hide JobCalls;
    hide TakeJob;
    hide ContinueCall;
    hide Settle;
    hide DeliverRoute;
    hide AdoptToken;
    TakenFromLedger(st);
    var rest := TakeJob(st);
    match st.jobs[0]
    case Continue(call) =>
      OneJob(call);
      ContinueAddsOne(rest, call);
      ContinueKeepsPurposes(rest, call);
    case Refuse(call) =>
      OneJob(call);
      SettleAddsOne(rest, call, NotReady);
    case Deliver(path) =>
      NoCall(st.jobs[0]);
      if path.Some? {
        DeliverKeepsLedger(rest, path.value);
      }
    case Replay(_, _) =>
      NoCall(st.jobs[0]);
    case Adopt(token) =>
      NoCall(st.jobs[0]);
      AdoptKeepsLedger(rest, token);
  }

  lemma TakenFromLedger(st: State)
    requires st.jobs != []
    ensures Ledger(st) == Ledger(TakeJob(st)) + JobCalls([st.jobs[0]])
    ensures TakeJob(st).past == st.past
  {
    hide Places;
    hide JobCalls;
    JobTaken(st.waiting, st.jobs, st.pending, st.past.settlements);
  }

  lemma DeliverKeepsLedger(st: State, path: string)
    ensures Ledger(DeliverRoute(st, path)) == Ledger(st)
    ensures DeliverRoute(st, path).past.purposes == st.past.purposes
  {
    hide Places;
  }

  lemma ContinueKeepsPurposes(st: State, call: nat)
    ensures ContinueCall(st, call).past.purposes == st.past.purposes
  {
  }

  lemma ConnectKeepsLedger(st: State, endpoint: Option<Option<string>>)
    ensures Ledger(ConnectTo(st, endpoint)) == Ledger(st)
    ensures ConnectTo(st, endpoint).past.purposes == st.past.purposes
  {
    hide Places;
    hide RejectReady;
    ReadyKeepsLedger(st.(booted := true, timer := None));
  }

  lemma SubscribeKeepsLedger(st: State, name: string, callback: nat)
    ensures Ledger(SubscribeTo(st, name, callback)) == Ledger(st)
    ensures SubscribeTo(st, name, callback).past.purposes == st.past.purposes
  {
    hide Places;
    hide JobCalls;
    if st.heldRoute.Some? {
      var replay := Replay(callback, st.heldRoute.value);
      NoCall(replay);
      JobsAdded(st.waiting, st.jobs, st.pending, st.past.settlements, [replay]);
    }
  }

  /** Events that touch neither calls nor ids. */
  predicate IsQuiet(event: Event) {
    event.Failing? || event.Closed? || event.Unsubscribe? || event.DeepLink?
  }

  lemma QuietStep(st: State, event: Event)
    requires Enabled(st, event) && (IsQuiet(event) || event.Opened?)
    ensures var st' := Step(st, event);
            && st'.ready == st.ready && st'.waiting == st.waiting && st'.jobs == st.jobs
            && st'.pending == st.pending && st'.nextId == st.nextId
            && st'.past.purposes == st.past.purposes && st'.past.settlements == st.past.settlements
            && st'.past.numbered == st.past.numbered
            && st'.past.sent == if event.Opened? then st.past.sent + [Sent(st.past.connections, Auth(st.currentToken))]
                                else st.past.sent
  {
    hide ConnectTo;
    hide HandleMessage;
    hide InvokeAs;
    hide SubscribeTo;
    hide RunFirstJob;
    hide DeliverRoute;
    if event.DeepLink? {
      DeliverFrame(st, event.path);
    }
  }

  /** The ledger holds each call issued once, and no other. */
  ghost predicate Balanced(st: State) {
    Ledger(st) == Issued(|st.past.purposes|)
  }

  lemma StaysBalanced(a: State, b: State)
    requires Balanced(a) && Ledger(b) == Ledger(a) && b.past.purposes == a.past.purposes
    ensures Balanced(b)
  {
    hide Ledger;
  }

  lemma InvokeKeepsBalance(st: State, purpose: Purpose)
    requires Balanced(st)
    ensures Balanced(InvokeAs(st, purpose))
  {
    hide Ledger;
    hide InvokeAs;
    InvokeAddsOne(st, purpose);
  }

  lemma QuietKeepsLedger(st: State, event: Event)
    requires Enabled(st, event) && (IsQuiet(event) || event.Opened?) && Balanced(st)
    ensures Balanced(Step(st, event))
  {
    hide Step;
    hide Places;
    QuietStep(st, event);
  }

  /** No step loses, duplicates or invents a call: an invoke adds one, and every
      other step only moves calls along. */
  lemma StepKeepsLedger(st: State, event: Event)
    requires Enabled(st, event) && Balanced(st)
    ensures Balanced(Step(st, event))
  {
    hide Balanced;
    hide Ledger;
    hide InvokeAs;
    hide HandleMessage;
    hide RunFirstJob;
    hide ConnectTo;
    hide SubscribeTo;
    hide HandleOpen;
    hide HandleClose;
    hide DeliverRoute;
    hide UnsubscribeFrom;
    match event
    case Receive(message) => MessageKeepsLedger(st, message);
    case Invoke => InvokeKeepsBalance(st, Ordinary);
    case RefreshTick => InvokeKeepsBalance(st, TokenRefresh);
    case RunJob =>
      JobKeepsLedger(st);
      StaysBalanced(st, RunFirstJob(st));
    case Connect(endpoint) =>
      ConnectKeepsLedger(st, endpoint);
      StaysBalanced(st, ConnectTo(st, endpoint));
    case Subscribe(name, callback) =>
      SubscribeKeepsLedger(st, name, callback);
      StaysBalanced(st, SubscribeTo(st, name, callback));
    case _ => QuietKeepsLedger(st, event);
  }

  lemma FirstReadyKeepsLedger(st: State)
    requires Balanced(st)
    ensures Balanced(st.(firstReady := false)) && Balanced(st.(refreshing := true))
  {
    hide Places;
  }

  lemma MessageKeepsLedger(st: State, message: Message)
    requires Balanced(st)
    ensures Balanced(HandleMessage(st, message))
  {
    hide Balanced;
    hide Ledger;
    hide InvokeAs;
    hide HandleReply;
    hide ResolveReady;
    hide RejectReady;
    match message
    case ReadyMessage =>
      ReadyKeepsLedger(st);
      var resolved := ResolveReady(st);
      StaysBalanced(st, resolved);
      if resolved.firstReady {
        FirstReadyKeepsLedger(resolved);
        InvokeKeepsBalance(resolved.(firstReady := false), InitialRoute);
        FirstReadyKeepsLedger(InvokeAs(resolved.(firstReady := false), InitialRoute));
      }
    case Reply(id, ok, result) =>
      ReplyKeepsLedger(st, id, ok, result);
      ReplyKeepsPurposes(st, id, ok, result);
      StaysBalanced(st, HandleReply(st, id, ok, result));
    case ErrorMessage =>
      ReadyKeepsLedger(st);
      StaysBalanced(st, RejectReady(st));
    case _ =>
  }

  lemma ReplyKeepsPurposes(st: State, id: nat, ok: bool, result: Option<string>)
    ensures HandleReply(st, id, ok, result).past.purposes == st.past.purposes
  {
  }

  lemma {:induction false} IssuedCount(n: nat, c: nat)
    ensures Issued(n)[c] == if c < n then 1 else 0
  {
    if n > 0 {
      IssuedCount(n - 1, c);
    }
  }

  // ----- What the handlers leave alone -----

  /** Only the queues, the ready promise and the list of calls may differ. */
  ghost predicate SameRest(a: State, b: State) {
    b == a.(ready := b.ready, firstReady := b.firstReady, refreshing := b.refreshing, waiting := b.waiting,
            jobs := b.jobs, past := a.past.(purposes := b.past.purposes))
  }

  lemma ReadyFrame(st: State)
    ensures SameRest(st, ResolveReady(st)) && SameRest(st, RejectReady(st))
  {
    hide MapContinue;
    hide MapRefuse;
  }

  lemma InvokeFrame(st: State, purpose: Purpose)
    ensures SameRest(st, InvokeAs(st, purpose))
  {
  }

  lemma MessageFrame(st: State, message: Message)
    requires !message.Reply?
    ensures SameRest(st, HandleMessage(st, message))
  {
    hide ResolveReady;
    hide RejectReady;
    hide InvokeAs;
    ReadyFrame(st);
    InvokeFrame(ResolveReady(st).(firstReady := false), InitialRoute);
  }

  lemma ReplyFrame(st: State, id: nat, ok: bool, result: Option<string>)
    ensures var st' := HandleReply(st, id, ok, result);
            st' == st.(pending := st'.pending, jobs := st'.jobs,
                       past := st.past.(settlements := st'.past.settlements))
  {
    hide FollowUp;
  }

  lemma ConnectFrame(st: State, endpoint: Option<Option<string>>)
    ensures var st' := ConnectTo(st, endpoint);
            if endpoint == None then SameRest(st.(booted := true, timer := None), st')
            else st' == st.(booted := true, timer := None, tokenInitialized := true, currentToken := st'.currentToken,
                            socket := Connecting, past := st.past.(connections := st.past.connections + 1))
  {
    hide RejectReady;
    ReadyFrame(st.(booted := true, timer := None));
  }

  lemma SubscribeFrame(st: State, name: string, callback: nat)
    ensures var st' := SubscribeTo(st, name, callback);
            st' == st.(listeners := st'.listeners, heldRoute := st'.heldRoute, jobs := st'.jobs,
                       past := st.past.(replayed := st'.past.replayed))
  {
  }

  lemma DeliverFrame(st: State, path: string)
    ensures var st' := DeliverRoute(st, path);
            st' == st.(heldRoute := st'.heldRoute,
                       past := st.past.(routes := st'.past.routes, dispatched := st'.past.dispatched))
  {
    hide Subscribers;
  }

  lemma ContinueFrame(st: State, call: nat)
    ensures var st' := ContinueCall(st, call);
            && st' == st.(nextId := st.nextId + 1, pending := st'.pending, past := st'.past)
            && st'.past == st.past.(numbered := st.past.numbered + [Waiter(st.nextId, call)],
                                    settlements := st'.past.settlements, sent := st'.past.sent)
            && (st'.past.sent == st.past.sent
                || (st.socket == Open && st'.past.sent == st.past.sent + [Sent(st.past.connections, Call(st.nextId))]))
            && (st'.past.settlements == st.past.settlements
                || st'.past.settlements == st.past.settlements + [Settlement(call, NotConnected)])
  {
  }

  // ----- Ids -----

  /** Ids are given out in order, each to one call. */
  ghost predicate IdsInOrder(numbered: seq<Waiter>, nextId: nat) {
    && nextId == |numbered| + 1
    && (forall k | 0 <= k < |numbered| :: numbered[k].id == k + 1)
    && (forall i, j | 0 <= i < j < |numbered| :: numbered[i].call != numbered[j].call)
  }

  /** Pending entries and replies carry ids that were given to their calls. */
  ghost predicate PendingAreTheirs(numbered: seq<Waiter>, pending: seq<Waiter>) {
    forall k | 0 <= k < |pending| :: pending[k] in numbered
  }

  ghost predicate RepliesAreTheirs(numbered: seq<Waiter>, settlements: seq<Settlement>) {
    forall k | 0 <= k < |settlements| :: HasItsId(numbered, settlements[k])
  }

  ghost predicate HasItsId(numbered: seq<Waiter>, s: Settlement) {
    s.outcome.Replied? ==> Waiter(s.outcome.id, s.call) in numbered
  }

  /** A call with an id is pending or settled. */
  ghost predicate NumberedAreOut(numbered: seq<Waiter>, pending: seq<Waiter>, settlements: seq<Settlement>) {
    forall k | 0 <= k < |numbered| :: numbered[k].call in PendingCalls(pending) + SettledCalls(settlements)
  }

  /** The call frames carry given ids, each once, in increasing order. */
  ghost predicate FramesInOrder(sent: seq<Sent>, nextId: nat) {
    && (forall k | 0 <= k < |sent| && sent[k].frame.Call? :: sent[k].frame.id < nextId)
    && (forall i, j | 0 <= i < j < |sent| && sent[i].frame.Call? && sent[j].frame.Call? ::
          sent[i].frame.id < sent[j].frame.id)
  }

  ghost predicate IdInv(st: State) {
    && IdsInOrder(st.past.numbered, st.nextId)
    && PendingAreTheirs(st.past.numbered, st.pending)
    && RepliesAreTheirs(st.past.numbered, st.past.settlements)
    && NumberedAreOut(st.past.numbered, st.pending, st.past.settlements)
    && FramesInOrder(st.past.sent, st.nextId)
  }

  /** A call about to run has no id yet. */
  lemma FreshCall(st: State, call: nat)
    requires Balanced(st) && st.jobs != [] && st.jobs[0] == Continue(call)
    requires NumberedAreOut(st.past.numbered, st.pending, st.past.settlements)
    ensures forall k | 0 <= k < |st.past.numbered| :: st.past.numbered[k].call != call
  {
    IssuedCount(|st.past.purposes|, call);
    assert JobCalls(st.jobs)[call] >= 1;
    assert Ledger(st)[call] <= 1;
    assert (PendingCalls(st.pending) + SettledCalls(st.past.settlements))[call] == 0;
  }

  lemma NumberedOneMore(numbered: seq<Waiter>, nextId: nat, call: nat)
    requires IdsInOrder(numbered, nextId) && forall k | 0 <= k < |numbered| :: numbered[k].call != call
    ensures IdsInOrder(numbered + [Waiter(nextId, call)], nextId + 1)
  {
  }

  lemma TheirsOneMore(numbered: seq<Waiter>, pending: seq<Waiter>, settlements: seq<Settlement>, w: Waiter)
    requires PendingAreTheirs(numbered, pending) && RepliesAreTheirs(numbered, settlements)
    ensures PendingAreTheirs(numbered + [w], pending) && PendingAreTheirs(numbered + [w], pending + [w])
    ensures RepliesAreTheirs(numbered + [w], settlements)
    ensures RepliesAreTheirs(numbered + [w], settlements + [Settlement(w.call, NotConnected)])
  {
    forall k | 0 <= k < |settlements|
      ensures HasItsId(numbered + [w], settlements[k])
    {
      assert HasItsId(numbered, settlements[k]);
    }
    assert HasItsId(numbered + [w], Settlement(w.call, NotConnected));
  }

  lemma OutOneMore(numbered: seq<Waiter>, pending: seq<Waiter>, settlements: seq<Settlement>, w: Waiter)
    requires NumberedAreOut(numbered, pending, settlements)
    ensures NumberedAreOut(numbered + [w], pending + [w], settlements)
    ensures NumberedAreOut(numbered + [w], pending, settlements + [Settlement(w.call, NotConnected)])
  {
    PendingConcat(pending, [w]);
    assert PendingCalls([w]) == multiset{w.call};
    SettledSnoc(settlements, Settlement(w.call, NotConnected));
  }

  lemma FrameOneMore(sent: seq<Sent>, connection: nat, nextId: nat)
    requires FramesInOrder(sent, nextId)
    ensures FramesInOrder(sent, nextId + 1)
    ensures FramesInOrder(sent + [Sent(connection, Call(nextId))], nextId + 1)
  {
  }

  lemma ContinueKeepsIds(st: State, call: nat)
    requires IdInv(st) && forall k | 0 <= k < |st.past.numbered| :: st.past.numbered[k].call != call
    ensures IdInv(ContinueCall(st, call))
    ensures st.socket == Open ==>
              var st' := ContinueCall(st, call); var n := |st'.past.sent|;
              && n > 0 && st'.past.sent[n - 1].frame.Call?
              && Waiter(st'.past.sent[n - 1].frame.id, call) in st'.past.numbered
              && Waiter(st'.past.sent[n - 1].frame.id, call) in st'.pending
  {
    hide IdsInOrder;
    hide PendingAreTheirs;
    hide RepliesAreTheirs;
    hide NumberedAreOut;
    hide FramesInOrder;
    var w := Waiter(st.nextId, call);
    NumberedOneMore(st.past.numbered, st.nextId, call);
    TheirsOneMore(st.past.numbered, st.pending, st.past.settlements, w);
    OutOneMore(st.past.numbered, st.pending, st.past.settlements, w);
    FrameOneMore(st.past.sent, st.past.connections, st.nextId);
  }

  lemma OutAfterReply(numbered: seq<Waiter>, pending: seq<Waiter>, settlements: seq<Settlement>, k: nat, s: Settlement)
    requires k < |pending| && s.call == pending[k].call && NumberedAreOut(numbered, pending, settlements)
    ensures NumberedAreOut(numbered, pending[..k] + pending[k + 1..], settlements + [s])
  {
    var rest := pending[..k] + pending[k + 1..];
    PendingRemoved(pending, k);
    SettledSnoc(settlements, s);
    assert PendingCalls(pending) + SettledCalls(settlements) == PendingCalls(rest) + SettledCalls(settlements + [s]);
  }

  lemma TheirsAfterReply(numbered: seq<Waiter>, pending: seq<Waiter>, settlements: seq<Settlement>, k: nat, ok: bool)
    requires k < |pending| && PendingAreTheirs(numbered, pending) && RepliesAreTheirs(numbered, settlements)
    ensures PendingAreTheirs(numbered, pending[..k] + pending[k + 1..])
    ensures RepliesAreTheirs(numbered, settlements + [Settlement(pending[k].call, Replied(pending[k].id, ok))])
  {
    var w := pending[k];
    assert Waiter(w.id, w.call) == w;
    assert HasItsId(numbered, Settlement(w.call, Replied(w.id, ok)));
  }

  lemma ReplyKeepsIds(st: State, id: nat, ok: bool, result: Option<string>)
    requires IdInv(st)
    ensures IdInv(HandleReply(st, id, ok, result))
  {
    hide IdsInOrder;
    hide PendingAreTheirs;
    hide RepliesAreTheirs;
    hide NumberedAreOut;
    hide FramesInOrder;
    hide FollowUp;
    var k := Find(st.pending, id);
    if k < |st.pending| {
      var w := st.pending[k];
      TheirsAfterReply(st.past.numbered, st.pending, st.past.settlements, k, ok);
      OutAfterReply(st.past.numbered, st.pending, st.past.settlements, k, Settlement(w.call, Replied(w.id, ok)));
    }
  }

  lemma SettledWithoutId(numbered: seq<Waiter>, pending: seq<Waiter>, settlements: seq<Settlement>, call: nat)
    requires RepliesAreTheirs(numbered, settlements) && NumberedAreOut(numbered, pending, settlements)
    ensures RepliesAreTheirs(numbered, settlements + [Settlement(call, NotReady)])
    ensures NumberedAreOut(numbered, pending, settlements + [Settlement(call, NotReady)])
  {
    NoReplyIsTheirs(numbered, settlements, call);
    OneMoreSettled(numbered, pending, settlements, call);
  }

  lemma NoReplyIsTheirs(numbered: seq<Waiter>, settlements: seq<Settlement>, call: nat)
    requires RepliesAreTheirs(numbered, settlements)
    ensures RepliesAreTheirs(numbered, settlements + [Settlement(call, NotReady)])
  {
    assert HasItsId(numbered, Settlement(call, NotReady));
    hide HasItsId;
  }

  lemma OneMoreSettled(numbered: seq<Waiter>, pending: seq<Waiter>, settlements: seq<Settlement>, call: nat)
    requires NumberedAreOut(numbered, pending, settlements)
    ensures NumberedAreOut(numbered, pending, settlements + [Settlement(call, NotReady)])
  {
    hide PendingCalls;
    hide SettledCalls;
    SettledSnoc(settlements, Settlement(call, NotReady));
  }

  /** What the id invariant reads is left alone. */
  lemma SameIdsKeep(a: State, b: State)
    requires IdInv(a) && b.pending == a.pending && b.nextId == a.nextId
    requires b.past.numbered == a.past.numbered && b.past.settlements == a.past.settlements
    requires b.past.sent == a.past.sent
    ensures IdInv(b)
  {
    hide IdsInOrder;
    hide PendingAreTheirs;
    hide RepliesAreTheirs;
    hide NumberedAreOut;
    hide FramesInOrder;
  }

  lemma RefuseKeepsIds(st: State, call: nat)
    requires IdInv(st)
    ensures IdInv(Settle(st, call, NotReady))
  {
    hide IdsInOrder;
    hide PendingAreTheirs;
    hide RepliesAreTheirs;
    hide NumberedAreOut;
    hide FramesInOrder;
    SettledWithoutId(st.past.numbered, st.pending, st.past.settlements, call);
  }

  lemma JobKeepsIds(st: State)
    requires st.jobs != [] && IdInv(st) && Balanced(st)
    ensures IdInv(RunFirstJob(st))
  {
    hide IdInv;
    hide Balanced;
    hide Settle;
    hide ContinueCall;
    hide DeliverRoute;
    var rest := TakeJob(st);
    SameIdsKeep(st, rest);
    match st.jobs[0]
    case Continue(call) =>
      FreshForJob(st, call);
      ContinueKeepsIds(rest, call);
    case Refuse(call) => RefuseKeepsIds(rest, call);
    case Deliver(path) =>
      if path.Some? {
        DeliverFrame(rest, path.value);
        SameIdsKeep(rest, DeliverRoute(rest, path.value));
      }
    case Replay(_, _) =>
    case Adopt(token) => SameIdsKeep(rest, AdoptToken(rest, token));
  }

  lemma FreshForJob(st: State, call: nat)
    requires IdInv(st) && Balanced(st) && st.jobs != [] && st.jobs[0] == Continue(call)
    ensures forall k | 0 <= k < |st.past.numbered| :: st.past.numbered[k].call != call
  {
    hide Balanced;
    hide NumberedAreOut;
    FreshCall(st, call);
  }

  lemma AuthKeepsFrames(sent: seq<Sent>, nextId: nat, frame: Sent)
    requires FramesInOrder(sent, nextId) && frame.frame.Auth?
    ensures FramesInOrder(sent + [frame], nextId)
  {
  }

  /** Every step keeps the discipline of ids. */
  lemma StepKeepsIds(st: State, event: Event)
    requires Enabled(st, event) && IdInv(st) && Balanced(st)
    ensures IdInv(Step(st, event))
  {
    hide IdsInOrder;
    hide PendingAreTheirs;
    hide RepliesAreTheirs;
    hide NumberedAreOut;
    hide FramesInOrder;
    hide Ledger;
    if IsQuiet(event) || event.Opened? {
      QuietStep(st, event);
      AuthKeepsFrames(st.past.sent, st.nextId, Sent(st.past.connections, Auth(st.currentToken)));
      hide Step;
    } else if event.RunJob? {
      hide RunFirstJob;
      JobKeepsIds(st);
    } else if event.Receive? && event.message.Reply? {
      hide HandleReply;
      ReplyKeepsIds(st, event.message.id, event.message.ok, event.message.result);
    } else {
      SameIds(st, event);
    }
  }

  /** Neither a job, a socket opening nor a reply. */
  predicate IsPlain(event: Event) {
    event.Invoke? || event.RefreshTick? || (event.Receive? && !event.message.Reply?)
  }

  lemma PlainStep(st: State, event: Event)
    requires Enabled(st, event) && IsPlain(event)
    ensures SameRest(st, Step(st, event))
  {
    hide InvokeAs;
    hide HandleMessage;
    hide SameRest;
    match event
    case Receive(message) => MessageFrame(st, message);
    case _ =>
      InvokeFrame(st, Ordinary);
      InvokeFrame(st, TokenRefresh);
  }

  lemma SameIds(st: State, event: Event)
    requires Enabled(st, event) && (IsPlain(event) || event.Connect? || event.Subscribe?)
    ensures var st' := Step(st, event);
            && st'.pending == st.pending && st'.nextId == st.nextId && st'.past.settlements == st.past.settlements
            && st'.past.numbered == st.past.numbered && st'.past.sent == st.past.sent
  {
    if event.Connect? {
      hide ConnectTo;
      ConnectFrame(st, event.endpoint);
    } else if event.Subscribe? {
      hide SubscribeTo;
      SubscribeFrame(st, event.event, event.callback);
    } else {
      hide Step;
      PlainStep(st, event);
    }
  }

  // ----- Connections -----

  function Min(a: nat, b: nat): nat {
    if a < b then a else b
  }

  /** The reconnect delay after `k` closes without an open. */
  function Backoff(k: nat): nat {
    Min(FIRST_DELAY * Power2(k), MAX_DELAY)
  }

  lemma BackoffDoubles(k: nat)
    ensures Backoff(k + 1) == Min(Backoff(k) * 2, 10000) && Backoff(0) == 500
  {
  }

  /** The auth frame opens each connection's frames, and only it is an auth frame. */
  ghost predicate AuthFirst(sent: seq<Sent>, connections: nat) {
    && (forall k | 0 <= k < |sent| :: sent[k].connection <= connections)
    && (forall i, j | 0 <= i < j < |sent| :: sent[i].connection <= sent[j].connection)
    && (forall k | 0 <= k < |sent| ::
          sent[k].frame.Auth? <==> k == 0 || sent[k - 1].connection < sent[k].connection)
  }

  /** The frames of the last connection have begun exactly once it has opened. */
  ghost predicate OpenHasAuth(sent: seq<Sent>, connections: nat, socket: Socket) {
    && (socket == Connecting ==> sent == [] || sent[|sent| - 1].connection < connections)
    && (socket == Open ==> sent != [] && sent[|sent| - 1].connection == connections)
  }

  /** The socket, the timer and the delay. */
  ghost predicate TimingInv(st: State) {
    && st.reconnectDelay == Backoff(st.past.closes)
    && (st.timer.Some? ==> st.booted && st.socket == NoSocket && st.past.closes > 0
                           && st.timer.value == Backoff(st.past.closes - 1))
    && (!st.booted ==> st.socket == NoSocket)
  }

  ghost predicate ConnectionInv(st: State) {
    AuthFirst(st.past.sent, st.past.connections) && OpenHasAuth(st.past.sent, st.past.connections, st.socket)
    && TimingInv(st)
  }

  lemma AuthSent(sent: seq<Sent>, connections: nat, token: Option<string>)
    requires AuthFirst(sent, connections) && OpenHasAuth(sent, connections, Connecting)
    ensures var sent' := sent + [Sent(connections, Auth(token))];
            AuthFirst(sent', connections) && OpenHasAuth(sent', connections, Open)
  {
  }

  lemma CallSent(sent: seq<Sent>, connections: nat, id: nat)
    requires AuthFirst(sent, connections) && OpenHasAuth(sent, connections, Open)
    ensures var sent' := sent + [Sent(connections, Call(id))];
            AuthFirst(sent', connections) && OpenHasAuth(sent', connections, Open)
  {
  }

  lemma NewConnection(sent: seq<Sent>, connections: nat)
    requires AuthFirst(sent, connections)
    ensures AuthFirst(sent, connections + 1) && OpenHasAuth(sent, connections + 1, Connecting)
  {
  }

  /** What the connection invariant reads is left alone. */
  ghost predicate SameConnection(a: State, b: State) {
    && a.socket == b.socket && a.timer == b.timer && a.booted == b.booted && a.reconnectDelay == b.reconnectDelay
    && a.past.sent == b.past.sent && a.past.connections == b.past.connections && a.past.closes == b.past.closes
  }

  lemma MostStepsKeepConnection(st: State, event: Event)
    requires Enabled(st, event) && !event.RunJob?
    requires !event.Opened? && !event.Failing? && !event.Closed? && !event.Connect?
    ensures SameConnection(st, Step(st, event))
  {
    if IsPlain(event) {
      hide Step;
      PlainStep(st, event);
    } else {
      hide HandleReply;
      hide SubscribeTo;
      hide DeliverRoute;
      match event
      case Receive(message) => ReplyFrame(st, message.id, message.ok, message.result);
      case Subscribe(name, callback) => SubscribeFrame(st, name, callback);
      case DeepLink(path) => DeliverFrame(st, path);
      case _ =>
    }
  }

  /** At most one call frame is sent, on an open connection; the rest of what the
      connection invariant reads is left alone. */
  ghost predicate MayCall(a: State, b: State) {
    && a.socket == b.socket && a.timer == b.timer && a.booted == b.booted && a.reconnectDelay == b.reconnectDelay
    && a.past.connections == b.past.connections && a.past.closes == b.past.closes
    && (b.past.sent == a.past.sent
        || (a.socket == Open && b.past.sent == a.past.sent + [Sent(a.past.connections, Call(a.nextId))]))
  }

  lemma CallMayCall(st: State, call: nat)
    ensures MayCall(st, ContinueCall(st, call)) && MayCall(st, Settle(st, call, NotReady))
  {
  }

  lemma RouteMayCall(st: State, path: string)
    ensures MayCall(st, DeliverRoute(st, path))
  {
  }

  lemma JobsAndConnection(st: State)
    requires st.jobs != []
    ensures MayCall(st, RunFirstJob(st))
  {
    hide ContinueCall;
    hide Settle;
    hide DeliverRoute;
    var rest := TakeJob(st);
    match st.jobs[0]
    case Continue(call) => CallMayCall(rest, call);
    case Refuse(call) => CallMayCall(rest, call);
    case Deliver(path) =>
      if path.Some? {
        RouteMayCall(rest, path.value);
      }
    case _ =>
  }

  lemma BackoffAtFirst()
    ensures Backoff(0) == FIRST_DELAY
  {
    assert Power2(0) == 1;
  }

  lemma ConnectKeepsConnection(st: State, endpoint: Option<Option<string>>)
    requires ConnectionInv(st) && Enabled(st, Connect(endpoint))
    ensures ConnectionInv(ConnectTo(st, endpoint))
  {
    hide AuthFirst;
    hide OpenHasAuth;
    hide Backoff;
    hide MapRefuse;
    NewConnection(st.past.sent, st.past.connections);
  }

  lemma SocketEventKeepsConnection(st: State, event: Event)
    requires Enabled(st, event) && ConnectionInv(st)
    requires event.Opened? || event.Closed? || event.Failing?
    ensures ConnectionInv(Step(st, event))
    ensures event.Closed? ==> Step(st, event).timer == Some(Backoff(st.past.closes))
  {
    hide AuthFirst;
    hide Backoff;
    BackoffAtFirst();
    BackoffDoubles(st.past.closes);
    if event.Opened? {
      AuthSent(st.past.sent, st.past.connections, st.currentToken);
    }
  }

  /** Every step keeps the discipline of connections. */
  lemma StepKeepsConnection(st: State, event: Event)
    requires Enabled(st, event) && ConnectionInv(st)
    ensures ConnectionInv(Step(st, event))
  {
    hide AuthFirst;
    hide OpenHasAuth;
    hide Backoff;
    hide RunFirstJob;
    hide ConnectTo;
    if event.Connect? {
      ConnectKeepsConnection(st, event.endpoint);
    } else if event.Opened? || event.Closed? || event.Failing? {
      SocketEventKeepsConnection(st, event);
      hide Step;
    } else if event.RunJob? {
      JobsAndConnection(st);
      if st.socket == Open {
        CallSent(st.past.sent, st.past.connections, st.nextId);
      }
    } else {
      MostStepsKeepConnection(st, event);
      hide Step;
    }
  }

  // ----- The launch route -----

  ghost predicate Distinct(s: seq<nat>) {
    forall i, j | 0 <= i < j < |s| :: s[i] != s[j]
  }

  /** A route is held only while nobody subscribes to navigation; each route is
      dispatched on arrival, or replayed, at most once. */
  ghost predicate RouteInv(st: State) {
    && (st.heldRoute.Some? ==> Subscribers(st, "navigate") == {})
    && RoutesOnce(st.past, st.heldRoute)
    && NoneDropped(st.past, st.heldRoute)
  }

  /** A route that is held, or was held and then replayed. */
  ghost predicate WasHeld(past: History, held: Option<Route>, n: nat) {
    n in past.replayed || (held.Some? && held.value.number == n)
  }

  /** A route was dispatched on arrival, or is held, or was replayed, or gave way to
      a later route that was held. */
  ghost predicate Accounted(past: History, held: Option<Route>, n: nat) {
    n in past.dispatched || exists m: nat :: n <= m && WasHeld(past, held, m)
  }

  ghost predicate NoneDropped(past: History, held: Option<Route>) {
    forall n: nat | n < past.routes :: Accounted(past, held, n)
  }

  lemma AccountedDispatch(past: History, held: Option<Route>)
    requires NoneDropped(past, held)
    ensures NoneDropped(past.(routes := past.routes + 1, dispatched := past.dispatched + [past.routes]), held)
  {
    var after := past.(routes := past.routes + 1, dispatched := past.dispatched + [past.routes]);
    forall n: nat | n < after.routes
      ensures Accounted(after, held, n)
    {
      if n < past.routes && n !in past.dispatched {
        assert Accounted(past, held, n);
        var m: nat :| n <= m && WasHeld(past, held, m);
        assert WasHeld(after, held, m);
      }
    }
  }

  lemma AccountedReplay(past: History, route: Route)
    requires NoneDropped(past, Some(route))
    ensures NoneDropped(past.(replayed := past.replayed + [route.number]), None)
  {
    var after := past.(replayed := past.replayed + [route.number]);
    forall n: nat | n < after.routes
      ensures Accounted(after, None, n)
    {
      assert Accounted(past, Some(route), n);
      if n !in past.dispatched {
        var m: nat :| n <= m && WasHeld(past, Some(route), m);
        assert WasHeld(after, None, m);
      }
    }
  }

  lemma AccountedHold(past: History, held: Option<Route>, path: string)
    requires NoneDropped(past, held) && RoutesOnce(past, held)
    ensures NoneDropped(past.(routes := past.routes + 1), Some(Route(past.routes, path)))
  {
    var after, route := past.(routes := past.routes + 1), Some(Route(past.routes, path));
    assert WasHeld(after, route, past.routes);
  }

  ghost predicate RoutesOnce(past: History, held: Option<Route>) {
    && Distinct(past.dispatched + past.replayed)
    && (forall n | n in past.dispatched + past.replayed :: n < past.routes)
    && (held.Some? ==> held.value.number < past.routes && held.value.number !in past.dispatched + past.replayed)
  }

  lemma DistinctMiddle(a: seq<nat>, b: seq<nat>, n: nat)
    requires Distinct(a + b) && n !in a + b
    ensures Distinct(a + [n] + b) && Distinct(a + (b + [n]))
  {
    assert forall i | 0 <= i < |a| :: (a + b)[i] == a[i];
    assert forall i | 0 <= i < |b| :: (a + b)[|a| + i] == b[i];
    assert forall i | 0 <= i < |a + b| :: (a + b)[i] in a + b;
  }

  lemma DispatchOne(past: History, held: Option<Route>)
    requires RoutesOnce(past, held)
    ensures RoutesOnce(past.(routes := past.routes + 1, dispatched := past.dispatched + [past.routes]), held)
  {
    var a, b, n := past.dispatched, past.replayed, past.routes;
    DistinctMiddle(a, b, n);
    assert forall x :: x in a + [n] + b <==> x == n || x in a + b;
    hide Distinct;
  }

  lemma ReplayOne(past: History, route: Route)
    requires RoutesOnce(past, Some(route))
    ensures RoutesOnce(past.(replayed := past.replayed + [route.number]), None)
  {
    var a, b, n := past.dispatched, past.replayed, route.number;
    DistinctMiddle(a, b, n);
    assert forall x :: x in a + (b + [n]) <==> x == n || x in a + b;
    hide Distinct;
  }

  lemma HoldOne(past: History, held: Option<Route>, path: string)
    requires RoutesOnce(past, held)
    ensures RoutesOnce(past.(routes := past.routes + 1), Some(Route(past.routes, path)))
  {
    hide Distinct;
  }

  lemma DeliverKeepsRoutes(st: State, path: string)
    requires RouteInv(st)
    ensures RouteInv(DeliverRoute(st, path))
  {
    hide RoutesOnce;
    hide NoneDropped;
    DispatchOne(st.past, st.heldRoute);
    HoldOne(st.past, st.heldRoute, path);
    AccountedDispatch(st.past, st.heldRoute);
    AccountedHold(st.past, st.heldRoute, path);
  }

  lemma SubscribeKeepsRoutes(st: State, name: string, callback: nat)
    requires RouteInv(st)
    ensures RouteInv(SubscribeTo(st, name, callback))
    ensures name == NAVIGATE && st.heldRoute.Some? ==>
              var st' := SubscribeTo(st, name, callback);
              && st'.heldRoute == None && st'.jobs == st.jobs + [Replay(callback, st.heldRoute.value)]
              && st'.past.replayed == st.past.replayed + [st.heldRoute.value.number]
  {
    hide RoutesOnce;
    hide NoneDropped;
    if st.heldRoute.Some? {
      ReplayOne(st.past, st.heldRoute.value);
      AccountedReplay(st.past, st.heldRoute.value);
    }
  }

  lemma SameAccounts(a: History, b: History, held: Option<Route>)
    requires NoneDropped(a, held) && a.routes == b.routes && a.dispatched == b.dispatched && a.replayed == b.replayed
    ensures NoneDropped(b, held)
  {
    forall n: nat | n < b.routes
      ensures Accounted(b, held, n)
    {
      assert Accounted(a, held, n);
      if n !in a.dispatched {
        var m: nat :| n <= m && WasHeld(a, held, m);
        assert WasHeld(b, held, m);
      }
    }
  }

  ghost predicate SameRoutes(a: State, b: State) {
    && a.listeners == b.listeners && a.heldRoute == b.heldRoute && a.past.routes == b.past.routes
    && a.past.dispatched == b.past.dispatched && a.past.replayed == b.past.replayed
  }

  lemma SameRoutesKeep(a: State, b: State)
    requires RouteInv(a) && SameRoutes(a, b)
    ensures RouteInv(b)
  {
    hide Distinct;
    hide NoneDropped;
    SameAccounts(a.past, b.past, a.heldRoute);
  }

  lemma MostStepsKeepRoutes(st: State, event: Event)
    requires Enabled(st, event)
    requires !event.Subscribe? && !event.Unsubscribe? && !event.DeepLink? && !event.RunJob?
    ensures SameRoutes(st, Step(st, event))
  {
    if IsPlain(event) {
      hide Step;
      PlainStep(st, event);
    } else {
      hide HandleReply;
      hide ConnectTo;
      match event
      case Receive(message) => ReplyFrame(st, message.id, message.ok, message.result);
      case Connect(endpoint) => ConnectFrame(st, endpoint);
      case _ =>
    }
  }

  lemma JobKeepsRoutes(st: State)
    requires st.jobs != [] && RouteInv(st)
    ensures RouteInv(RunFirstJob(st))
  {
    hide ContinueCall;
    hide DeliverRoute;
    var rest := st.(jobs := st.jobs[1..]);
    SameRoutesKeep(st, rest);
    hide RouteInv;
    match st.jobs[0]
    case Continue(call) =>
      ContinueFrame(rest, call);
      SameRoutesKeep(rest, ContinueCall(rest, call));
    case Refuse(call) => SameRoutesKeep(rest, RunFirstJob(st));
    case Deliver(path) =>
      if path.Some? {
        DeliverKeepsRoutes(rest, path.value);
      }
    case Adopt(token) => SameRoutesKeep(rest, RunFirstJob(st));
    case Replay(_, _) =>
  }

  lemma UnsubscribeKeepsRoutes(st: State, name: string, callback: nat)
    requires RouteInv(st)
    ensures RouteInv(UnsubscribeFrom(st, name, callback))
  {
    hide RoutesOnce;
    hide NoneDropped;
  }

  /** Every step keeps the discipline of launch routes. */
  lemma StepKeepsRoutes(st: State, event: Event)
    requires Enabled(st, event) && RouteInv(st)
    ensures RouteInv(Step(st, event))
  {
    hide RouteInv;
    hide SubscribeTo;
    hide DeliverRoute;
    hide UnsubscribeFrom;
    hide RunFirstJob;
    match event
    case Subscribe(name, callback) => SubscribeKeepsRoutes(st, name, callback);
    case Unsubscribe(name, callback) => UnsubscribeKeepsRoutes(st, name, callback);
    case DeepLink(path) => DeliverKeepsRoutes(st, path);
    case RunJob => JobKeepsRoutes(st);
    case _ =>
      MostStepsKeepRoutes(st, event);
      SameRoutesKeep(st, Step(st, event));
      hide Step;
  }

  // ----- Over every run -----

  ghost predicate Inv(st: State) {
    && Balanced(st)
    && IdInv(st)
    && ConnectionInv(st)
    && RouteInv(st)
  }

  lemma InvAtFirst()
    ensures Inv(INITIAL)
  {
    BackoffAtFirst();
    assert Ledger(INITIAL) == multiset{};
  }

  lemma StepKeepsInv(st: State, event: Event)
    requires Enabled(st, event) && Inv(st)
    ensures Inv(Step(st, event))
  {
    hide Step;
    hide Balanced;
    hide IdInv;
    hide ConnectionInv;
    hide RouteInv;
    StepKeepsLedger(st, event);
    StepKeepsIds(st, event);
    StepKeepsConnection(st, event);
    StepKeepsRoutes(st, event);
  }

  lemma {:induction false} InvAlways(st: State, events: seq<Event>)
    requires Inv(st) && IsRun(st, events)
    ensures Inv(After(st, events))
    decreases |events|
  {
    hide Step;
    hide Inv;
    if events != [] {
      StepKeepsInv(st, events[0]);
      InvAlways(Step(st, events[0]), events[1..]);
    }
  }

  /** How often a call stands in a list of settlements. */
  lemma {:induction false} CountedTwice(s: seq<Settlement>, i: nat, j: nat)
    requires i < j < |s| && s[i].call == s[j].call
    ensures SettledCalls(s)[s[i].call] >= 2
    decreases |s|
  {
    if i > 0 {
      CountedTwice(s[1..], i - 1, j - 1);
    } else {
      Counted(s[1..], j - 1);
    }
  }

  lemma {:induction false} Counted(s: seq<Settlement>, j: nat)
    requires j < |s|
    ensures SettledCalls(s)[s[j].call] >= 1
    decreases |s|
  {
    if j > 0 {
      Counted(s[1..], j - 1);
    }
  }

  /** Over every run of opens, closes, messages, invokes, subscriptions and deep
      links: every call issued is in exactly one place (waiting, about to run,
      pending or settled) and settles at most once; a reply settles the call its
      id was given to; ids are never reused, across reconnects or otherwise; the
      auth frame comes first on every connection; the delay after k closes
      without an open is min(500 * 2^k, 10000); and a launch route is held only
      while nobody subscribes, handed over at most once, and never dropped but for
      a later one. */
  lemma BridgeSafety(events: seq<Event>)
    requires IsRun(INITIAL, events)
    ensures var st := After(INITIAL, events); var past := st.past;
            && (forall c: nat :: Ledger(st)[c] == if c < |past.purposes| then 1 else 0)
            && (forall i, j | 0 <= i < j < |past.settlements| :: past.settlements[i].call != past.settlements[j].call)
            && (forall k | 0 <= k < |past.settlements| :: HasItsId(past.numbered, past.settlements[k]))
            && (forall i, j | 0 <= i < j < |past.numbered| ::
                  past.numbered[i].id < past.numbered[j].id && past.numbered[i].call != past.numbered[j].call)
            && AuthFirst(past.sent, past.connections) && FramesInOrder(past.sent, st.nextId)
            && st.reconnectDelay == Min(500 * Power2(past.closes), 10000)
            && (st.timer.Some? ==> past.closes > 0 && st.timer.value == Min(500 * Power2(past.closes - 1), 10000))
            && (st.heldRoute.Some? ==> Subscribers(st, "navigate") == {})
            && Distinct(past.dispatched + past.replayed)
            && (forall n: nat | n < past.routes :: Accounted(past, st.heldRoute, n))
  {
    hide Ledger;
    hide Balanced;
    hide IdInv;
    hide ConnectionInv;
    hide RouteInv;
    hide After;
    hide IsRun;
    hide HasItsId;
    hide AuthFirst;
    hide FramesInOrder;
    hide Distinct;
    hide Accounted;
    hide Power2;
    hide Backoff;
    InvAtFirst();
    InvAlways(INITIAL, events);
    var st := After(INITIAL, events);
    LedgerCounts(st);
    SettledOnce(st);
    IdsMean(st);
    ConnectionMeans(st);
    RoutesMean(st);
  }

  lemma IdsMean(st: State)
    requires IdInv(st)
    ensures var past := st.past;
            && (forall k | 0 <= k < |past.settlements| :: HasItsId(past.numbered, past.settlements[k]))
            && (forall i, j | 0 <= i < j < |past.numbered| ::
                  past.numbered[i].id < past.numbered[j].id && past.numbered[i].call != past.numbered[j].call)
            && FramesInOrder(past.sent, st.nextId)
  {
    hide HasItsId;
    hide FramesInOrder;
    hide PendingAreTheirs;
    hide NumberedAreOut;
  }

  lemma ConnectionMeans(st: State)
    requires ConnectionInv(st)
    ensures AuthFirst(st.past.sent, st.past.connections)
    ensures st.reconnectDelay == Min(500 * Power2(st.past.closes), 10000)
    ensures st.timer.Some? ==> st.past.closes > 0 && st.timer.value == Min(500 * Power2(st.past.closes - 1), 10000)
  {
    hide AuthFirst;
    hide OpenHasAuth;
    hide Power2;
  }

  lemma RoutesMean(st: State)
    requires RouteInv(st)
    ensures var past := st.past;
            && (st.heldRoute.Some? ==> Subscribers(st, "navigate") == {})
            && Distinct(past.dispatched + past.replayed)
            && (forall n: nat | n < past.routes :: Accounted(past, st.heldRoute, n))
  {
    hide Distinct;
    hide Accounted;
    hide Subscribers;
  }

  lemma LedgerCounts(st: State)
    requires Balanced(st)
    ensures forall c: nat :: Ledger(st)[c] == if c < |st.past.purposes| then 1 else 0
  {
    forall c: nat
      ensures Ledger(st)[c] == if c < |st.past.purposes| then 1 else 0
    {
      IssuedCount(|st.past.purposes|, c);
    }
  }

  lemma SettledOnce(st: State)
    requires Balanced(st)
    ensures var s := st.past.settlements; forall i, j | 0 <= i < j < |s| :: s[i].call != s[j].call
  {
    var s := st.past.settlements;
    forall i, j | 0 <= i < j < |s|
      ensures s[i].call != s[j].call
    {
      IssuedCount(|st.past.purposes|, s[i].call);
      assert Ledger(st)[s[i].call] >= SettledCalls(s)[s[i].call];
      if s[i].call == s[j].call {
        CountedTwice(s, i, j);
      }
    }
  }

  /** A call is settled with a reply only by the message that carries its id, and
      then by the reply's own verdict. */
  lemma SettledOnlyByItsReply(st: State, event: Event, k: nat)
    requires Enabled(st, event) && Inv(st)
    requires |st.past.settlements| <= k < |Step(st, event).past.settlements|
    requires Step(st, event).past.settlements[k].outcome.Replied?
    ensures var s := Step(st, event).past.settlements[k];
            && event.Receive? && event.message.Reply?
            && s.outcome == Replied(event.message.id, event.message.ok)
            && Waiter(event.message.id, s.call) in st.pending
            && Waiter(event.message.id, s.call) in st.past.numbered
  {
    hide Ledger;
    hide ConnectionInv;
    hide RouteInv;
    if event.Receive? && event.message.Reply? {
      hide FollowUp;
      var m := event.message;
      var at := Find(st.pending, m.id);
      assert at < |st.pending| && st.pending[at] in st.past.numbered;
      assert st.pending[at] == Waiter(m.id, st.pending[at].call);
    } else {
      hide IdInv;
      NoReplySettled(st, event);
    }
  }

  lemma WaiterOfId(numbered: seq<Waiter>, nextId: nat, a: Waiter, b: Waiter)
    requires IdsInOrder(numbered, nextId) && a in numbered && b in numbered && a.id == b.id
    ensures a == b
  {
    var i :| 0 <= i < |numbered| && numbered[i] == a;
    var j :| 0 <= j < |numbered| && numbered[j] == b;
    assert numbered[i].id == i + 1 && numbered[j].id == j + 1;
  }

  lemma FindsTheWaiter(numbered: seq<Waiter>, nextId: nat, pending: seq<Waiter>, w: Waiter)
    requires IdsInOrder(numbered, nextId) && PendingAreTheirs(numbered, pending) && w in pending
    ensures Find(pending, w.id) < |pending| && pending[Find(pending, w.id)] == w
  {
    hide IdsInOrder;
    var k := Find(pending, w.id);
    var at :| 0 <= at < |pending| && pending[at] == w;
    assert pending[at] in numbered && k < |pending|;
    WaiterOfId(numbered, nextId, pending[k], w);
  }

  lemma OneRemoved(pending: seq<Waiter>, k: nat)
    requires k < |pending|
    ensures multiset(pending[..k] + pending[k + 1..]) == multiset(pending) - multiset{pending[k]}
  {
    assert pending == pending[..k] + [pending[k]] + pending[k + 1..];
  }

  /** Conversely, the reply with a pending call's id settles that call, with the
      reply's verdict, on whichever connection it arrives. */
  lemma ReplySettlesItsCall(st: State, w: Waiter, ok: bool, result: Option<string>)
    requires IdInv(st) && w in st.pending
    ensures var st' := HandleReply(st, w.id, ok, result);
            && st'.past.settlements == st.past.settlements + [Settlement(w.call, Replied(w.id, ok))]
            && multiset(st'.pending) == multiset(st.pending) - multiset{w}
  {
    hide FollowUp;
    hide IdsInOrder;
    hide PendingAreTheirs;
    hide RepliesAreTheirs;
    hide NumberedAreOut;
    hide FramesInOrder;
    hide Find;
    FindsTheWaiter(st.past.numbered, st.nextId, st.pending, w);
    OneRemoved(st.pending, Find(st.pending, w.id));
  }

  /** Other steps settle calls only without a reply. */
  lemma NoReplySettled(st: State, event: Event)
    requires Enabled(st, event) && !(event.Receive? && event.message.Reply?)
    ensures var before, after := st.past.settlements, Step(st, event).past.settlements;
            after == before || exists c, o: Outcome :: after == before + [Settlement(c, o)] && !o.Replied?
  {
    if IsQuiet(event) || event.Opened? {
      QuietStep(st, event);
      hide Step;
    } else if event.RunJob? {
      hide ContinueCall;
      hide DeliverRoute;
      var rest := st.(jobs := st.jobs[1..]);
      match st.jobs[0] {
        case Continue(call) => ContinueFrame(rest, call);
        case Deliver(path) =>
          if path.Some? {
            DeliverFrame(rest, path.value);
          }
        case _ =>
      }
    } else {
      SameIds(st, event);
      hide Step;
    }
  }
}
