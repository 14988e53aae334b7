/**
 * The records the dashboard exchanges with its backend (app/types/types.ts)
 * and the command object sent over the broker (app/hooks/useWebSocket.ts).
 * Numbers that are identifiers or wire units are integers; measured
 * temperatures are reals, never computed with.
 */
module Types {
  import opened Wrappers

  datatype Master = Master(
    id: int,
    masterName: string,
    masterIpAddress: string,
    masterPort: int,
    plcId: int,
    masterLocation: string)

  datatype DeviceStatus = DeviceStatus(deviceId: string, status: string, timestamp: string)

  datatype ConnectionStatus = ConnectionStatus(status: string, timestamp: string, masterId: int)

  /** Both `Temperature` and `TemperatureData` of the source: one shape. */
  datatype TemperatureData = TemperatureData(value: real, timestamp: string, deviceId: string, masterId: int)

  datatype BlowerParameters = BlowerParameters(
    frequency: int,
    ampere: int,
    voltage: int,
    timestamp: string,
    deviceId: string,
    masterId: int)

  datatype TemperatureLog = TemperatureLog(
    id: int,
    value1: real,
    deviceName: string,
    masterName: string,
    masterLocation: string,
    addressName: Option<string>,
    timestamp: string)

  datatype TemperaturePaginatedResponse = TemperaturePaginatedResponse(
    content: seq<TemperatureLog>,
    currentPage: int,
    totalItems: int,
    totalPages: int,
    size: int)

  /** The command object: `ipAddress` is an optional property (`None` = undefined). */
  datatype Command = Command(action: string, ipAddress: Option<string>)

  /**
   * The outcome of a `fetch` followed by `response.json()`: a thrown error
   * (network failure or unreadable body, both caught and logged), a response
   * whose `ok` is false, or the decoded body of an ok response.
   */
  datatype Fetched<T> = Failed | NotOk | Ok(body: T)

  /** `connectionStatus?.status === "Connected"`: the controller link is up. */
  predicate ControllerConnected(cs: Option<ConnectionStatus>) {
    cs.Some? && cs.value.status == "Connected"
  }

  /** `x?.field || fallback` for a string field: undefined and "" are falsy. */
  function TextOr(field: Option<string>, fallback: string): (r: string)
    ensures field.Some? && field.value != "" ==> r == field.value
    ensures field.None? || field.value == "" ==> r == fallback
  {
    if field.Some? && field.value != "" then field.value else fallback
  }

  /**
   * The status line of the blower and controller cards, `x?.status ||
   * "Unknown"`, given `x?.status`.
   */
  function StatusLine(status: Option<string>): (text: string)
    ensures status.Some? && status.value != "" ==> text == status.value
    ensures status.None? || status.value == "" ==> text == "Unknown"
  {
    TextOr(status, "Unknown")
  }
}
