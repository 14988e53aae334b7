/**
 * The telemetry session of app/hooks/useWebSocket.ts: the STOMP-over-SockJS
 * client seen as a stream of inbound events (link events and topic
 * messages), the state the hook keeps (`isConnected` and the latest device
 * status, controller status and temperature), and the command frames
 * `sendCommand` publishes.
 *
 * `Snapshot` and `Step` specify the state machine; `TelemetrySession` is the
 * hook's state updated in place, each handler proved to follow `Step`.
 */
module Session {
  import opened Wrappers
  import opened Types
  import Json

  const DeviceStatusTopic: string := "/topic/device/status"
  const ConnectionStatusTopic: string := "/topic/connection/status"
  const TemperatureTopic: string := "/topic/temperature"
  /** The backend publishes blower parameters here; the hook never subscribes to it. */
  const BlowerParametersTopic: string := "/topic/blower/parameters"

  /** What the connect handler subscribes to, in order. */
  const SubscribedTopics: seq<string> := [DeviceStatusTopic, ConnectionStatusTopic, TemperatureTopic]

  const CommandDestination: string := "/app/device/command"
  const JsonContentType: string := "application/json"

  /** The property names of the object the hook returns. */
  const HookResultKeys: set<string> :=
    {"deviceStatus", "connectionStatus", "temperature", "isConnected", "sendCommand"}

  /** The client's lifecycle callbacks. */
  datatype LinkEvent =
    | StompConnected      // client.onConnect, the handler installed after construction
    | SocketClosed        // socket.onclose
    | SocketError         // socket.onerror
    | StompError          // onStompError
    | WebSocketError      // onWebSocketError
    | StompDisconnected   // onDisconnect

  /** A message as it arrives on a topic; `None` when its body is not JSON. */
  datatype Inbound =
    | DeviceStatusMessage(device: Option<DeviceStatus>)
    | ConnectionStatusMessage(connection: Option<ConnectionStatus>)
    | TemperatureMessage(reading: Option<TemperatureData>)
    | BlowerParametersMessage(parameters: Option<BlowerParameters>)

  function TopicOf(m: Inbound): string {
    match m
    case DeviceStatusMessage(_) => DeviceStatusTopic
    case ConnectionStatusMessage(_) => ConnectionStatusTopic
    case TemperatureMessage(_) => TemperatureTopic
    case BlowerParametersMessage(_) => BlowerParametersTopic
  }

  predicate Parsed(m: Inbound) {
    match m
    case DeviceStatusMessage(d) => d.Some?
    case ConnectionStatusMessage(c) => c.Some?
    case TemperatureMessage(t) => t.Some?
    case BlowerParametersMessage(p) => p.Some?
  }

  datatype Event = Link(link: LinkEvent) | Deliver(message: Inbound)

  /** A published STOMP frame: destination, `content-type` header and body. */
  datatype Frame = Frame(destination: string, contentType: string, body: string)

  /**
   * The session's state: `isConnected` as the hook reports it, whether the
   * client itself reports a live connection (`clientRef.current?.connected`,
   * the guard of `sendCommand`), the live subscriptions, and the latest value
   * of each telemetry channel.
   */
  datatype Snapshot = Snapshot(
    isConnected: bool,
    clientConnected: bool,
    subscriptions: seq<string>,
    deviceStatus: Option<DeviceStatus>,
    connectionStatus: Option<ConnectionStatus>,
    temperature: Option<TemperatureData>)

  const Initial: Snapshot := Snapshot(false, false, [], None, None, None)

  /** The hook's view never claims a link the client does not have, and subscriptions live exactly as long as the link. */
  predicate Consistent(s: Snapshot) {
    && (s.isConnected ==> s.clientConnected)
    && s.subscriptions == (if s.clientConnected then SubscribedTopics else [])
  }

  predicate SameTelemetry(s: Snapshot, t: Snapshot) {
    && t.deviceStatus == s.deviceStatus
    && t.connectionStatus == s.connectionStatus
    && t.temperature == s.temperature
  }

  /** A lifecycle callback: only connect raises `isConnected`; no callback touches telemetry. */
  function OnLink(s: Snapshot, e: LinkEvent): (t: Snapshot)
    ensures t.isConnected <==> e == StompConnected
    ensures SameTelemetry(s, t)
    ensures e == StompConnected ==> t.clientConnected && t.subscriptions == SubscribedTopics
    ensures e == SocketClosed || e == StompDisconnected ==> !t.clientConnected && t.subscriptions == []
    ensures e == SocketError || e == StompError || e == WebSocketError ==>
              t.clientConnected == s.clientConnected && t.subscriptions == s.subscriptions
  {
    match e
    case StompConnected => s.(isConnected := true, clientConnected := true, subscriptions := SubscribedTopics)
    case SocketClosed => s.(isConnected := false, clientConnected := false, subscriptions := [])
    case StompDisconnected => s.(isConnected := false, clientConnected := false, subscriptions := [])
    case _ => s.(isConnected := false)
  }

  /**
   * A message: delivered only on a subscribed topic; a body that parses
   * replaces that topic's value wholesale, one that does not is dropped.
   */
  function OnMessage(s: Snapshot, m: Inbound): (t: Snapshot)
    ensures TopicOf(m) !in s.subscriptions || !Parsed(m) ==> t == s
    ensures t.isConnected == s.isConnected && t.clientConnected == s.clientConnected
    ensures t.subscriptions == s.subscriptions
    ensures t.deviceStatus != s.deviceStatus ==> m.DeviceStatusMessage? && t.deviceStatus == m.device
    ensures t.connectionStatus != s.connectionStatus ==> m.ConnectionStatusMessage? && t.connectionStatus == m.connection
    ensures t.temperature != s.temperature ==> m.TemperatureMessage? && t.temperature == m.reading
    ensures TopicOf(m) in s.subscriptions && m.DeviceStatusMessage? && Parsed(m) ==> t.deviceStatus == m.device
    ensures TopicOf(m) in s.subscriptions && m.ConnectionStatusMessage? && Parsed(m) ==> t.connectionStatus == m.connection
    ensures TopicOf(m) in s.subscriptions && m.TemperatureMessage? && Parsed(m) ==> t.temperature == m.reading
  {
    if TopicOf(m) !in s.subscriptions then s
    else match m
      case DeviceStatusMessage(Some(d)) => s.(deviceStatus := Some(d))
      case ConnectionStatusMessage(Some(c)) => s.(connectionStatus := Some(c))
      case TemperatureMessage(Some(r)) => s.(temperature := Some(r))
      case _ => s
  }

  function Step(s: Snapshot, ev: Event): Snapshot {
    match ev
    case Link(e) => OnLink(s, e)
    case Deliver(m) => OnMessage(s, m)
  }

  /** The state after a history of events, oldest first. */
  function Run(s: Snapshot, evs: seq<Event>): Snapshot
    decreases |evs|
  {
    if evs == [] then s else Step(Run(s, evs[..|evs| - 1]), evs[|evs| - 1])
  }

  /** The most recent lifecycle callback in a history, if any. */
  function LastLink(evs: seq<Event>): Option<LinkEvent>
    decreases |evs|
  {
    if evs == [] then None
    else if evs[|evs| - 1].Link? then Some(evs[|evs| - 1].link)
    else LastLink(evs[..|evs| - 1])
  }

  /** The frames `sendCommand` publishes: one JSON frame when the client is connected, none otherwise. */
  function Published(s: Snapshot, cmd: Command): (frames: seq<Frame>)
    ensures |frames| == (if s.clientConnected then 1 else 0)
    ensures forall f :: f in frames ==>
              f.destination == CommandDestination && f.contentType == JsonContentType
              && Json.ParseCommand(f.body) == Some(cmd)
  {
    Json.CommandJsonRoundTrip(cmd);
    if s.clientConnected then [Frame(CommandDestination, JsonContentType, Json.CommandJson(cmd))] else []
  }

  lemma InitialConsistent()
    ensures Consistent(Initial) && !Initial.isConnected
    ensures Initial.deviceStatus.None? && Initial.connectionStatus.None? && Initial.temperature.None?
  {
  }

  lemma StepConsistent(s: Snapshot, ev: Event)
    requires Consistent(s)
    ensures Consistent(Step(s, ev))
  {
  }

  /** Every reachable state is consistent. */
  lemma {:induction false} RunConsistent(evs: seq<Event>)
    ensures Consistent(Run(Initial, evs))
  {
    if evs != [] {
      RunConsistent(evs[..|evs| - 1]);
      StepConsistent(Run(Initial, evs[..|evs| - 1]), evs[|evs| - 1]);
    }
  }

  /** `isConnected` holds exactly when the most recent lifecycle callback was a connect. */
  lemma {:induction false} ConnectedIffLastLinkConnect(s: Snapshot, evs: seq<Event>)
    requires !s.isConnected
    ensures Run(s, evs).isConnected <==> LastLink(evs) == Some(StompConnected)
  {
    if evs != [] {
      ConnectedIffLastLinkConnect(s, evs[..|evs| - 1]);
    }
  }

  /** Telemetry is only ever changed by messages: a history of lifecycle callbacks alone leaves it as it was. */
  lemma {:induction false} LinkEventsKeepTelemetry(s: Snapshot, evs: seq<Event>)
    requires forall i :: 0 <= i < |evs| ==> evs[i].Link?
    ensures SameTelemetry(s, Run(s, evs))
  {
    if evs != [] {
      LinkEventsKeepTelemetry(s, evs[..|evs| - 1]);
    }
  }

  /** Blower-parameter messages never reach the state: that topic is not subscribed. */
  lemma BlowerParametersIgnored(s: Snapshot, p: Option<BlowerParameters>)
    requires Consistent(s)
    ensures Step(s, Deliver(BlowerParametersMessage(p))) == s
  {
    assert BlowerParametersTopic != DeviceStatusTopic;
    assert BlowerParametersTopic != ConnectionStatusTopic;
    assert BlowerParametersTopic != TemperatureTopic;
    assert BlowerParametersTopic !in SubscribedTopics;
  }

  /** Once the link has closed, messages change nothing until the next connect. */
  lemma ClosedLinkIgnoresMessages(s: Snapshot, m: Inbound)
    requires Consistent(s) && !s.clientConnected
    ensures Step(s, Deliver(m)) == s
  {
  }

  /** A garbled device-status message is dropped and the next good one still lands. */
  lemma GarbledThenGoodDeviceStatus(s: Snapshot, d: DeviceStatus)
    requires Consistent(s) && s.clientConnected
    ensures var t := Run(s, [Deliver(DeviceStatusMessage(None)), Deliver(DeviceStatusMessage(Some(d)))]);
            t.deviceStatus == Some(d)
            && t.connectionStatus == s.connectionStatus && t.temperature == s.temperature
            && t.isConnected == s.isConnected
  {
    var evs := [Deliver(DeviceStatusMessage(None)), Deliver(DeviceStatusMessage(Some(d)))];
    assert evs[..1][..0] == [];
    assert Run(s, evs[..1]) == s;
    assert DeviceStatusTopic in SubscribedTopics;
  }

  /** Running two histories one after the other is running their concatenation. */
  lemma {:induction false} RunAppend(s: Snapshot, a: seq<Event>, b: seq<Event>)
    ensures Run(s, a + b) == Run(Run(s, a), b)
  {
    if b == [] {
      assert a + b == a;
    } else {
      assert (a + b)[..|a + b| - 1] == a + b[..|b| - 1];
      RunAppend(s, a, b[..|b| - 1]);
    }
  }

  /** Messages never move the link state. */
  lemma {:induction false} MessagesKeepLink(s: Snapshot, evs: seq<Event>)
    requires forall i :: 0 <= i < |evs| ==> evs[i].Deliver?
    ensures Run(s, evs).isConnected == s.isConnected
    ensures Run(s, evs).clientConnected == s.clientConnected
  {
    if evs != [] {
      MessagesKeepLink(s, evs[..|evs| - 1]);
    }
  }

  /** After a connect, and until the next lifecycle callback, every command is published. */
  lemma CommandAfterConnectIsPublished(s: Snapshot, evs: seq<Event>, cmd: Command)
    requires forall i :: 0 <= i < |evs| ==> evs[i].Deliver?
    ensures |Published(Run(s, [Link(StompConnected)] + evs), cmd)| == 1
  {
    RunAppend(s, [Link(StompConnected)], evs);
    assert Run(s, [Link(StompConnected)]) == OnLink(s, StompConnected);
    MessagesKeepLink(OnLink(s, StompConnected), evs);
  }

  /**
   * The hook's state, overwritten by the client's callbacks, with the frames
   * published so far recorded in a ghost outbox.
   */
  class TelemetrySession {
    var isConnected: bool
    var clientConnected: bool
    var subscriptions: seq<string>
    var deviceStatus: Option<DeviceStatus>
    var connectionStatus: Option<ConnectionStatus>
    var temperature: Option<TemperatureData>
    ghost var outbox: seq<Frame>

    function State(): Snapshot
      reads this
    {
      Snapshot(isConnected, clientConnected, subscriptions, deviceStatus, connectionStatus, temperature)
    }

    /** Mount: nothing known, not connected, nothing sent. */
    constructor ()
      ensures State() == Initial && outbox == []
    {
      isConnected, clientConnected, subscriptions := false, false, [];
      deviceStatus, connectionStatus, temperature := None, None, None;
      outbox := [];
    }

    method HandleLink(e: LinkEvent)
      modifies this
      ensures State() == OnLink(old(State()), e) && outbox == old(outbox)
    {
      match e
      case StompConnected =>
        isConnected, clientConnected := true, true;
        subscriptions := [DeviceStatusTopic, ConnectionStatusTopic, TemperatureTopic];
      case SocketClosed =>
        isConnected, clientConnected, subscriptions := false, false, [];
      case StompDisconnected =>
        isConnected, clientConnected, subscriptions := false, false, [];
      case SocketError =>
        isConnected := false;
      case StompError =>
        isConnected := false;
      case WebSocketError =>
        isConnected := false;
    }

    method HandleMessage(m: Inbound)
      modifies this
      ensures State() == OnMessage(old(State()), m) && outbox == old(outbox)
    {
      if TopicOf(m) in subscriptions {
        match m {
          case DeviceStatusMessage(d) =>
            if d.Some? { deviceStatus := d; }
          case ConnectionStatusMessage(c) =>
            if c.Some? { connectionStatus := c; }
          case TemperatureMessage(r) =>
            if r.Some? { temperature := r; }
          case BlowerParametersMessage(_) =>
        }
      }
    }

    /** `sendCommand`: publish the command's JSON only when the client reports a live connection. */
    method SendCommand(cmd: Command)
      modifies this`outbox
      ensures State() == old(State())
      ensures outbox == old(outbox) + Published(old(State()), cmd)
    {
      if clientConnected {
        var payload := Json.CommandJson(cmd);
        outbox := outbox + [Frame(CommandDestination, JsonContentType, payload)];
      }
    }
  }
}
