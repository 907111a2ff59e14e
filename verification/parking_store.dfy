/** The dashboard's live-occupancy store and the handlers of its feed
    socket. Socket callbacks are events applied in order; the source's
    `setTimeout(initWebSocket, 5000)` is an emitted action. */
module ParkingStore {

  datatype WebsocketStatus = Connected | Disconnected | Error

  /** The store. `spotStatus` holds whatever the last parsed message held:
      the source declares its values "occupied" | "empty" but never checks,
      so values are kept as raw strings. */
  datatype Store = Store(spotStatus: map<string, string>, websocketStatus: WebsocketStatus)

  const RetryDelayMs: nat := 5000

  /** A side effect handed to the scheduler: run the connection routine
      again after `delayMs`. */
  datatype Action = ScheduleInit(delayMs: nat)

  /** A received text frame, as JSON parsing sees it: a flat string map, or
      text that does not parse. */
  datatype Frame = Parsed(payload: map<string, string>) | Unparseable

  datatype SocketEvent = Open | Message(frame: Frame) | SocketError | Close

  datatype Step = Step(store: Store, actions: seq<Action>)

  function InitialStore(): (s: Store)
    ensures s.spotStatus == map[] && s.websocketStatus == Disconnected
  {
    Store(map[], Disconnected)
  }

  /** `updateSpotStatus`: the new map replaces the old one outright. */
  function UpdateSpotStatus(st: Store, status: map<string, string>): (r: Store)
    ensures r.websocketStatus == st.websocketStatus
    ensures r.spotStatus.Keys == status.Keys
    ensures forall k :: k in status ==> r.spotStatus[k] == status[k]
  {
    st.(spotStatus := status)
  }

  function SetWebsocketStatus(st: Store, status: WebsocketStatus): (r: Store)
    ensures r.spotStatus == st.spotStatus && r.websocketStatus == status
  {
    st.(websocketStatus := status)
  }

  /** One socket callback: open marks the socket connected; a parsed
      message replaces the map and an unparseable one is swallowed; an error
      marks the socket errored without retrying; a close marks it
      disconnected and schedules exactly one re-initialisation. */
  function OnEvent(st: Store, ev: SocketEvent): (r: Step)
    ensures ev.Message? ==> r.store.websocketStatus == st.websocketStatus
    ensures !ev.Message? ==> r.store.spotStatus == st.spotStatus
    ensures ev.Message? && ev.frame.Parsed? ==> r.store.spotStatus == ev.frame.payload
    ensures ev.Message? && ev.frame.Unparseable? ==> r.store == st
    ensures ev == Open ==> r.store.websocketStatus == Connected
    ensures ev == SocketError ==> r.store.websocketStatus == Error
    ensures ev == Close ==> r.store.websocketStatus == Disconnected
    ensures r.actions == if ev == Close then [ScheduleInit(RetryDelayMs)] else []
  {
    match ev
    case Open => Step(SetWebsocketStatus(st, Connected), [])
    case Message(Parsed(payload)) => Step(UpdateSpotStatus(st, payload), [])
    case Message(Unparseable) => Step(st, [])
    case SocketError => Step(SetWebsocketStatus(st, Error), [])
    case Close => Step(SetWebsocketStatus(st, Disconnected), [ScheduleInit(RetryDelayMs)])
  }

  /** What `initWebSocket` returns: whether a socket came back (a
      synchronous constructor failure returns null), the store, and the
      actions it scheduled. */
  datatype Init = Init(socketReturned: bool, store: Store, actions: seq<Action>)

  /** `initWebSocket`. `constructorThrows` stands for the socket constructor
      failing synchronously; then the store reads Error and one retry is
      scheduled. Otherwise the handlers are installed and nothing changes
      until events arrive. */
  function InitWebSocket(st: Store, constructorThrows: bool): (r: Init)
    ensures r.socketReturned <==> !constructorThrows
    ensures r.store.spotStatus == st.spotStatus
    ensures constructorThrows ==>
              r.store.websocketStatus == Error && r.actions == [ScheduleInit(RetryDelayMs)]
    ensures !constructorThrows ==> r.store == st && r.actions == []
  {
    if constructorThrows then Init(false, SetWebsocketStatus(st, Error), [ScheduleInit(RetryDelayMs)])
    else Init(true, st, [])
  }

  /** Applies the callbacks in order, collecting the scheduled actions. */
  function Run(st: Store, events: seq<SocketEvent>): Step
    decreases |events|
  {
    if |events| == 0 then Step(st, [])
    else
      var last := events[|events| - 1];
      var before := Run(st, events[..|events| - 1]);
      var step := OnEvent(before.store, last);
      Step(step.store, before.actions + step.actions)
  }

  //--------------------------------------------------------------------------
  // Reference definitions, read from the end of the event sequence
  //--------------------------------------------------------------------------

  /** The payload of the last message that parsed, if any, else `initial`. */
  function LastParsedPayload(events: seq<SocketEvent>, initial: map<string, string>): map<string, string>
    decreases |events|
  {
    if |events| == 0 then initial
    else
      var e := events[|events| - 1];
      if e.Message? && e.frame.Parsed? then e.frame.payload
      else LastParsedPayload(events[..|events| - 1], initial)
  }

  /** The status the last open, error or close event sets, else `initial`. */
  function LastConnectionStatus(events: seq<SocketEvent>, initial: WebsocketStatus): WebsocketStatus
    decreases |events|
  {
    if |events| == 0 then initial
    else
      match events[|events| - 1]
      case Open => Connected
      case SocketError => Error
      case Close => Disconnected
      case Message(_) => LastConnectionStatus(events[..|events| - 1], initial)
  }

  function CountCloses(events: seq<SocketEvent>): nat
    decreases |events|
  {
    if |events| == 0 then 0
    else CountCloses(events[..|events| - 1]) + (if events[|events| - 1] == Close then 1 else 0)
  }

  /** After any run the map is the last parsed payload (full replace,
      failures ignored), the connection status is the one the last
      connection event set, and exactly one 5000 ms retry was scheduled per
      close: no cap, no backoff. */
  lemma {:induction false} RunMatchesReference(st: Store, events: seq<SocketEvent>)
    ensures var r := Run(st, events);
            && r.store.spotStatus == LastParsedPayload(events, st.spotStatus)
            && r.store.websocketStatus == LastConnectionStatus(events, st.websocketStatus)
            && |r.actions| == CountCloses(events)
            && forall i :: 0 <= i < |r.actions| ==> r.actions[i] == ScheduleInit(RetryDelayMs)
    decreases |events|
  {
    if |events| > 0 {
      RunMatchesReference(st, events[..|events| - 1]);
    }
  }

  /** Messages never move the connection status, and connection events
      never touch the map: the two halves of the store are independent. */
  lemma {:induction false} MessagesKeepStatus(st: Store, events: seq<SocketEvent>)
    requires forall i :: 0 <= i < |events| ==> events[i].Message?
    ensures Run(st, events).store.websocketStatus == st.websocketStatus
    ensures Run(st, events).actions == []
    decreases |events|
  {
    if |events| > 0 {
      MessagesKeepStatus(st, events[..|events| - 1]);
    }
  }

  /** A close followed by the retried connection opening gives the status
      sequence connected, disconnected, connected, with one retry. */
  lemma CloseThenReconnect(st: Store)
    ensures var r := Run(st, [Open, Close, Open]);
            r.store.websocketStatus == Connected && r.actions == [ScheduleInit(5000)] &&
            r.store.spotStatus == st.spotStatus
  {
    RunMatchesReference(st, [Open, Close, Open]);
    assert [Open, Close, Open][..2] == [Open, Close];
    assert [Open, Close][..1] == [Open];
  }

  /** A payload for spots 1 and 2 wipes an earlier entry for spot 3. */
  lemma FullReplaceDropsOldKeys(st: Store)
    requires "spot_3" in st.spotStatus
    ensures var p := map["spot_1" := "occupied", "spot_2" := "empty"];
            var r := OnEvent(st, Message(Parsed(p))).store;
            r.spotStatus == p && "spot_3" !in r.spotStatus
  {
  }
}
