/** Whether a client without a socket connects again. */
module BridgeReconnect {
  import opened Basics
  import opened BridgeModel
  import opened BridgeTheorems

  const NO_ENDPOINT := Connect(None)

  /** Started, without a socket, and with no connect scheduled. */
  predicate Stuck(st: State) {
    st.booted && st.socket == NoSocket && st.timer == None
  }

  lemma ConnectStuck(st: State, endpoint: Option<Option<string>>)
    requires Enabled(st, Connect(endpoint)) && TimingInv(st)
    ensures Stuck(ConnectTo(st, endpoint)) <==> endpoint == None
    ensures !Stuck(st)
  {
    hide MapRefuse;
    hide Backoff;
  }

  /** A client gets stuck by a connect that finds no endpoint, and by nothing else;
      nothing that can happen afterwards gets it out. */
  lemma StepStuck(st: State, event: Event)
    requires Enabled(st, event) && ConnectionInv(st)
    ensures Stuck(Step(st, event)) <==> Stuck(st) || event == NO_ENDPOINT
  {
    hide AuthFirst;
    hide OpenHasAuth;
    hide Backoff;
    hide ConnectTo;
    hide RunFirstJob;
    match event
    case Connect(endpoint) => ConnectStuck(st, endpoint);
    case Opened =>
    case Failing =>
    case Closed =>
    case RunJob =>
      JobsAndConnection(st);
    case _ =>
      MostStepsKeepConnection(st, event);
      hide Step;
  }

  lemma {:induction false} StuckInRun(st: State, events: seq<Event>)
    requires ConnectionInv(st) && IsRun(st, events)
    ensures Stuck(After(st, events)) <==> Stuck(st) || NO_ENDPOINT in events
    decreases |events|
  {
    hide Step;
    hide Stuck;
    hide Enabled;
    hide ConnectionInv;
    if events != [] {
      StepStuck(st, events[0]);
      StepKeepsConnection(st, events[0]);
      StuckInRun(Step(st, events[0]), events[1..]);
      assert events == [events[0]] + events[1..];
    }
  }

  /** After every run, a client that has started has a socket or a scheduled connect,
      unless some connect found no endpoint: then it has neither for good. */
  lemma ReconnectsUnless(events: seq<Event>)
    requires IsRun(INITIAL, events)
    ensures Stuck(After(INITIAL, events)) <==> NO_ENDPOINT in events
  {
    InvAtFirst();
    hide After;
    hide IsRun;
    hide ConnectionInv;
    StuckInRun(INITIAL, events);
  }
}
