/**
 * The dashboard's top-level component (app/components/DeviceMonitor.tsx):
 * the operator's intents (connect or disconnect the controller, switch the
 * blower, set its frequency) turned into commands for the telemetry
 * session, and the list of masters loaded from the backend.
 */
module DeviceMonitor {
  import opened Wrappers
  import opened Types
  import opened Decimal
  import Session
  import BlowerParameterCard

  const DisconnectMaster: string := "DISCONNECT_MASTER"
  const ConnectMaster: string := "CONNECT_MASTER"
  const TurnOnBlower: string := "TURN_ON_BLOWER"
  const TurnOffBlower: string := "TURN_OFF_BLOWER"

  /** `m.id.toString()`. */
  function IdString(m: Master): string {
    IntToString(m.id)
  }

  predicate Matches(m: Master, selectedId: string) {
    IdString(m) == selectedId
  }

  /** Master `i` is the first one in the list whose id reads as `selectedId`. */
  predicate IsFirstMatch(masters: seq<Master>, selectedId: string, i: int) {
    0 <= i < |masters| && Matches(masters[i], selectedId) &&
    forall j :: 0 <= j < i ==> !Matches(masters[j], selectedId)
  }

  /** `masters.find((m) => m.id.toString() === selectedMasterId)`. */
  function FindMaster(masters: seq<Master>, selectedId: string): (r: Option<Master>)
    ensures r.Some? ==> r.value in masters && Matches(r.value, selectedId)
    ensures r.None? <==> forall i :: 0 <= i < |masters| ==> !Matches(masters[i], selectedId)
  {
    if masters == [] then None
    else if Matches(masters[0], selectedId) then Some(masters[0])
    else
      var r := FindMaster(masters[1..], selectedId);
      assert forall i :: 1 <= i < |masters| ==> masters[i] == masters[1..][i - 1];
      r
  }

  lemma {:induction false} FindMasterIsFirst(masters: seq<Master>, selectedId: string, i: int)
    requires IsFirstMatch(masters, selectedId, i)
    ensures FindMaster(masters, selectedId) == Some(masters[i])
  {
    if i > 0 {
      assert !Matches(masters[0], selectedId);
      var tail := masters[1..];
      assert IsFirstMatch(tail, selectedId, i - 1) by {
        forall j | 0 <= j < i - 1
          ensures !Matches(tail[j], selectedId)
        {
          assert tail[j] == masters[j + 1];
        }
      }
      FindMasterIsFirst(tail, selectedId, i - 1);
    }
  }

  /** `handleConnect`: the command to send, if any. */
  function HandleConnect(connectionStatus: Option<ConnectionStatus>, masters: seq<Master>, selectedId: string)
    : (r: Option<Command>)
    ensures ControllerConnected(connectionStatus) ==> r == Some(Command(DisconnectMaster, None))
    ensures !ControllerConnected(connectionStatus) ==>
      (r.None? <==> forall i :: 0 <= i < |masters| ==> !Matches(masters[i], selectedId))
    ensures !ControllerConnected(connectionStatus) && r.Some? ==>
      r.value.action == ConnectMaster && r.value.ipAddress.Some? &&
      exists m :: m in masters && Matches(m, selectedId) && m.masterIpAddress == r.value.ipAddress.value
  {
    if ControllerConnected(connectionStatus) then Some(Command(DisconnectMaster, None))
    else
      match FindMaster(masters, selectedId)
      case Some(m) => Some(Command(ConnectMaster, Some(m.masterIpAddress)))
      case None => None
  }

  /** With the controller down, the CONNECT command carries the address of the first matching master. */
  lemma ConnectUsesFirstMatch(connectionStatus: Option<ConnectionStatus>, masters: seq<Master>, selectedId: string, i: int)
    requires !ControllerConnected(connectionStatus)
    requires IsFirstMatch(masters, selectedId, i)
    ensures HandleConnect(connectionStatus, masters, selectedId) == Some(Command(ConnectMaster, Some(masters[i].masterIpAddress)))
  {
    FindMasterIsFirst(masters, selectedId, i);
  }

  /**
   * The choice reads only the controller status: with the controller up, a
   * session whose transport has just closed still asks for DISCONNECT, and
   * that command then publishes nothing.
   */
  lemma DisconnectChosenWhileTransportDown(s: Session.Snapshot, masters: seq<Master>, selectedId: string)
    requires ControllerConnected(s.connectionStatus)
    ensures var t := Session.OnLink(s, Session.SocketClosed);
      !t.isConnected &&
      HandleConnect(t.connectionStatus, masters, selectedId) == Some(Command(DisconnectMaster, None)) &&
      Session.Published(t, Command(DisconnectMaster, None)) == []
  {
  }

  datatype BlowerAction = On | Off

  /** `handleBlowerControl`: the action name only, no address. */
  function HandleBlowerControl(action: BlowerAction): (cmd: Command)
    ensures cmd.ipAddress.None?
    ensures action == On <==> cmd.action == TurnOnBlower
    ensures action == Off <==> cmd.action == TurnOffBlower
  {
    Command(if action == On then TurnOnBlower else TurnOffBlower, None)
  }

  /**
   * What `handleFrequencySet(frequency)` does: it calls the hook's
   * `sendFrequencyCommand`, which is the value forwarded unchanged when the
   * hook returns such a property, and a call of `undefined` (a TypeError)
   * when it does not.
   */
  datatype FrequencyDispatch = Forwarded(frequency: int) | NotAFunction

  function HandleFrequencySet(hookKeys: set<string>, frequency: int): (d: FrequencyDispatch)
    ensures d.Forwarded? <==> "sendFrequencyCommand" in hookKeys
    ensures d.Forwarded? ==> d.frequency == frequency
  {
    if "sendFrequencyCommand" in hookKeys then Forwarded(frequency) else NotAFunction
  }

  /** The `blowerParameters` the component destructures from the hook: undefined when not returned. */
  function BlowerParametersProp(hookKeys: set<string>, returned: Option<BlowerParameters>): (p: Option<BlowerParameters>)
    ensures "blowerParameters" !in hookKeys ==> p.None?
    ensures "blowerParameters" in hookKeys ==> p == returned
  {
    if "blowerParameters" in hookKeys then returned else None
  }

  /** The hook as written returns no `sendFrequencyCommand`: a frequency set never reaches the broker. */
  lemma FrequencySetNeverDispatched(frequency: int)
    ensures HandleFrequencySet(Session.HookResultKeys, frequency) == NotAFunction
  {
    assert "sendFrequencyCommand" !in Session.HookResultKeys;
  }

  /** The hook as written returns no `blowerParameters`: the parameter card always shows N/A. */
  lemma ParameterCardAlwaysUnavailable(returned: Option<BlowerParameters>)
    ensures BlowerParameterCard.Render(BlowerParametersProp(Session.HookResultKeys, returned)) == ("N/A", "N/A", "N/A")
  {
    assert "blowerParameters" !in Session.HookResultKeys;
  }

  /** The component's own state: the masters loaded and the id picked in the selector. */
  class Monitor {
    var masters: seq<Master>
    var selectedMasterId: string

    constructor ()
      ensures masters == [] && selectedMasterId == ""
    {
      masters, selectedMasterId := [], "";
    }

    /** The masters fetch: only an ok response replaces the list. */
    method ApplyMastersFetch(response: Fetched<seq<Master>>)
      modifies this
      ensures response.Ok? ==> masters == response.body
      ensures !response.Ok? ==> masters == old(masters)
      ensures selectedMasterId == old(selectedMasterId)
    {
      if response.Ok? {
        masters := response.body;
      }
    }

    /** `onMasterSelect`, wired to `setSelectedMasterId`. */
    method SelectMaster(id: string)
      modifies this
      ensures selectedMasterId == id && masters == old(masters)
    {
      selectedMasterId := id;
    }

    /** The Connect/Disconnect button: `handleConnect` handing its command to the session. */
    method Connect(session: Session.TelemetrySession)
      modifies session`outbox
      ensures session.State() == old(session.State())
      ensures var cmd := HandleConnect(old(session.connectionStatus), masters, selectedMasterId);
        session.outbox == old(session.outbox) + (if cmd.Some? then Session.Published(old(session.State()), cmd.value) else [])
    {
      var cmd := HandleConnect(session.connectionStatus, masters, selectedMasterId);
      if cmd.Some? {
        session.SendCommand(cmd.value);
      }
    }

    /** The blower's On/Off buttons: `handleBlowerControl` handing its command to the session. */
    method BlowerControl(session: Session.TelemetrySession, action: BlowerAction)
      modifies session`outbox
      ensures session.State() == old(session.State())
      ensures session.outbox == old(session.outbox) + Session.Published(old(session.State()), HandleBlowerControl(action))
    {
      session.SendCommand(HandleBlowerControl(action));
    }
  }
}
