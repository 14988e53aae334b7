/**
 * The controller connection card (app/components/connectionCard.tsx): the
 * status line, the master id line, the selector's option values and the
 * Connect/Disconnect button, all read from the controller status and the
 * selected id.
 */
module ConnectionCard {
  import opened Wrappers
  import opened Types
  import opened Decimal
  import DeviceMonitor

  /** The button text. */
  function ButtonLabel(connectionStatus: Option<ConnectionStatus>): (caption: string)
    ensures caption == "Disconnect" <==> ControllerConnected(connectionStatus)
    ensures caption == "Connect" <==> !ControllerConnected(connectionStatus)
  {
    if ControllerConnected(connectionStatus) then "Disconnect" else "Connect"
  }

  /** The button's `disabled`: only Connect can be disabled, and only with nothing selected. */
  function ButtonDisabled(connectionStatus: Option<ConnectionStatus>, selectedId: string): (disabled: bool)
    ensures disabled <==> !ControllerConnected(connectionStatus) && selectedId == ""
  {
    if ControllerConnected(connectionStatus) then false else selectedId == ""
  }

  /** `connectionStatus?.masterId || "N/A"`: 0 is falsy, so it shows as N/A too. */
  function MasterIdText(connectionStatus: Option<ConnectionStatus>): (text: string)
    ensures connectionStatus.None? || connectionStatus.value.masterId == 0 ==> text == "N/A"
    ensures connectionStatus.Some? && connectionStatus.value.masterId != 0 ==>
      ParseInt(text) == Some(connectionStatus.value.masterId)
  {
    if connectionStatus.Some? && connectionStatus.value.masterId != 0 then
      IntToStringRoundTrip(connectionStatus.value.masterId);
      IntToString(connectionStatus.value.masterId)
    else "N/A"
  }

  /** The shown master id is N/A exactly when no non-zero id is known. */
  lemma MasterIdUnavailableIff(connectionStatus: Option<ConnectionStatus>)
    ensures MasterIdText(connectionStatus) == "N/A" <==> connectionStatus.None? || connectionStatus.value.masterId == 0
  {
    if connectionStatus.Some? && connectionStatus.value.masterId != 0 {
      assert ParseInt("N/A") == None by {
        assert !IsDigit('N');
      }
    }
  }

  /** The selector's option values, `master.id.toString()` per master, in list order. */
  function OptionValues(masters: seq<Master>): (values: seq<string>)
    ensures |values| == |masters|
    ensures forall i :: 0 <= i < |masters| ==> DeviceMonitor.Matches(masters[i], values[i])
  {
    seq(|masters|, i requires 0 <= i < |masters| => DeviceMonitor.IdString(masters[i]))
  }

  predicate UniqueIds(masters: seq<Master>) {
    forall i, j :: 0 <= i < j < |masters| ==> masters[i].id != masters[j].id
  }

  /** With unique ids, picking option `i` makes the component's lookup find master `i`. */
  lemma SelectableMasterFound(masters: seq<Master>, i: int)
    requires UniqueIds(masters)
    requires 0 <= i < |masters|
    ensures DeviceMonitor.FindMaster(masters, OptionValues(masters)[i]) == Some(masters[i])
  {
    var id := OptionValues(masters)[i];
    forall j | 0 <= j < i
      ensures !DeviceMonitor.Matches(masters[j], id)
    {
      if IntToString(masters[j].id) == IntToString(masters[i].id) {
        IntToStringInjective(masters[j].id, masters[i].id);
      }
    }
    assert DeviceMonitor.IsFirstMatch(masters, id, i);
    DeviceMonitor.FindMasterIsFirst(masters, id, i);
  }

  /** An enabled Connect button with option `i` selected sends CONNECT with that master's address. */
  lemma EnabledConnectSendsSelected(connectionStatus: Option<ConnectionStatus>, masters: seq<Master>, i: int)
    requires UniqueIds(masters)
    requires 0 <= i < |masters|
    requires !ControllerConnected(connectionStatus)
    ensures !ButtonDisabled(connectionStatus, OptionValues(masters)[i])
    ensures DeviceMonitor.HandleConnect(connectionStatus, masters, OptionValues(masters)[i])
      == Some(Command(DeviceMonitor.ConnectMaster, Some(masters[i].masterIpAddress)))
  {
    SelectableMasterFound(masters, i);
    assert 0 < |OptionValues(masters)[i]|;
  }

  /** The label names the command the click sends: Disconnect exactly when the click sends DISCONNECT. */
  lemma LabelMatchesCommand(connectionStatus: Option<ConnectionStatus>, masters: seq<Master>, selectedId: string)
    ensures ButtonLabel(connectionStatus) == "Disconnect" <==>
      DeviceMonitor.HandleConnect(connectionStatus, masters, selectedId) == Some(Command(DeviceMonitor.DisconnectMaster, None))
  {
    var r := DeviceMonitor.HandleConnect(connectionStatus, masters, selectedId);
    if !ControllerConnected(connectionStatus) && r.Some? {
      assert r.value.action == DeviceMonitor.ConnectMaster;
      assert DeviceMonitor.ConnectMaster[0] != DeviceMonitor.DisconnectMaster[0];
    }
  }
}
