# IoT dashboard telemetry core, modelled in Dafny

This project models the logic at the core of a small React dashboard for an
industrial blower and its PLC controller. The dashboard keeps one STOMP-over-SockJS
session to a backend broker. It shows the latest device status, controller
status and temperature, and sends operator commands: connect or disconnect a
controller, switch the blower on or off, and set its frequency. It also shows a live
20-point temperature window and a paginated, day-filterable table of historical
temperature logs.

The model keeps the source's own shapes:

- **Hook session.** The hook's session (`useWebSocket`) is a class, `Session.TelemetrySession`.
  - Its fields are the hook's state. Frames published by `sendCommand` go to a ghost outbox.
  - Each handler is proved to follow a pure state machine (`Session.OnLink`,
    `Session.OnMessage`, `Session.Published`). The lemmas are stated about that machine.
- **Component state.** The components whose state is updated by effects and handlers are classes over `seq` fields:
  - `DeviceMonitor.Monitor`
  - `TemperatureGraph.Panel`, whose ghost arrival history backs the live-window invariant
  - `TemperatureChart.Chart`
- **Pure code.** The code that only computes is written as functions with lemmas:
  - the URL rewrite, whose partners are lemmas on where `replace` acts (`ReplaceFirstAt`, `ReplaceFirstAbsent`) and on each kind of configured URL
  - `JSON.stringify` of a command, with a reader as its round-trip partner
  - the operator decisions
  - `parseFloat`
  - `toFixed`
  - the pagination rules
  - the log query
- **Shared modules:**
  - `Decimal`: integer numerals and digit runs, used by `toString`, `toFixed`, the frequency parse and the query.
  - `Window`: `Array.prototype.slice(-k)`.
  - `Types`: the records of `app/types/types.ts`.

Numbers that are identifiers or wire units are `int`. Measured temperatures are
`real`; nothing computes with them.

Behaviour of the code that the model keeps as it is:

- `useWebSocket` subscribes to three topics and never to `/topic/blower/parameters`.
- `TemperatureGraphs` does not clamp the page when `totalPages` shrinks.
- A late logs response is applied without checking that it still matches the current page and date.
- The hook returns neither `blowerParameters` nor `sendFrequencyCommand`.
  A frequency set therefore ends in calling `undefined`, and the parameter card always shows N/A.

## Model

| member | source | states |
|---|---|---|
| `Types.TextOr` | app/components/blowerCard.tsx:37 | `x?.field \|\| fallback` on a string: the field when defined and non-empty, the fallback when undefined or empty |
| `Decimal.IntToStringRoundTrip` | app/components/DeviceMonitor.tsx:51 | the numeral written by `Number.prototype.toString` for an integer reads back as that integer |
| `Decimal.IntToStringInjective` | app/components/DeviceMonitor.tsx:51 | distinct integers have distinct numerals, so comparing `id.toString()` compares ids |
| `Decimal.DigitsValueAppend` | app/components/blowerParameterCard.tsx:10-12 | reading digits is positional: `a ++ b` is worth `a * 10^|b| + b` |
| `WsUrl.ReplaceFirstAbsent` | app/hooks/useWebSocket.ts:41-43 | `String.prototype.replace` with no occurrence of the pattern returns the string unchanged |
| `WsUrl.ReplaceFirstAt` | app/hooks/useWebSocket.ts:41-43 | only the first occurrence is replaced; the text before and after it is kept |
| `WsUrl.BaseUrlDefault` | app/hooks/useWebSocket.ts:38-43 | an unset or empty URL setting dials `http://localhost:8081` |
| `WsUrl.BaseUrlOfWs` | app/hooks/useWebSocket.ts:38-43 | `ws://host` is dialled as `http://host`, with a later `wss://` in host rewritten once |
| `WsUrl.BaseUrlOfWss` | app/hooks/useWebSocket.ts:38-43 | `wss://host` is dialled as `https://host` when host holds no `ws://` |
| `WsUrl.BaseUrlUnchanged` | app/hooks/useWebSocket.ts:38-43 | a URL holding neither marker is dialled as configured |
| `WsUrl.ReplaceFirst` | app/hooks/useWebSocket.ts:41-43 | `String.prototype.replace` with a string pattern; no ensures of its own: `ReplaceFirstAt` and `ReplaceFirstAbsent` state where it acts |
| `WsUrl.BaseUrl` | app/hooks/useWebSocket.ts:38-43 | the URL handed to SockJS; no ensures of its own: `BaseUrlDefault`, `BaseUrlOfWs`, `BaseUrlOfWss` and `BaseUrlUnchanged` state it |
| `Json.EscapeChar` | app/hooks/useWebSocket.ts:149 | the escape of one character has no control character, never begins with a bare quote, and is one character exactly when the character is kept as is |
| `Json.Escape` | app/hooks/useWebSocket.ts:149 | an escaped string holds no control character and is at least as long as the string |
| `Json.CommandJson` | app/hooks/useWebSocket.ts:149 | the body starts with `{"action":"` and ends with `}` |
| `Json.ReadStringBodyOfEscape` | app/hooks/useWebSocket.ts:149 | reading an escaped string up to its closing quote gives back the string and the rest |
| `Json.CommandJsonRoundTrip` | app/hooks/useWebSocket.ts:149 | the JSON text of a command reads back as the same command, `ipAddress` included |
| `Json.CommandJsonAddressIffDefined` | app/hooks/useWebSocket.ts:23-26 | the `ipAddress` member is written exactly when the property is defined |
| `Session.OnLink` | app/hooks/useWebSocket.ts:52-91 | only connect sets `isConnected`; connect subscribes exactly the three topics; socket close and disconnect end the client link and its subscriptions; no lifecycle callback changes telemetry |
| `Session.OnMessage` | app/hooks/useWebSocket.ts:94-124 | a parsed message on a subscribed topic replaces only that topic's value; an unparsed or unsubscribed one changes nothing; the link state is untouched |
| `Session.Published` | app/hooks/useWebSocket.ts:143-173 | one frame to `/app/device/command` with `content-type: application/json` whose body reads back as the command when the client is connected, none otherwise |
| `Session.InitialConsistent` | app/hooks/useWebSocket.ts:29-34 | at mount the three values are null, `isConnected` is false and the state is consistent |
| `Session.StepConsistent` | app/hooks/useWebSocket.ts:52-124 | every callback keeps `isConnected` within the client link and subscriptions alive exactly while the link is |
| `Session.RunConsistent` | app/hooks/useWebSocket.ts:52-124 | every reachable state is consistent |
| `Session.ConnectedIffLastLinkConnect` | app/hooks/useWebSocket.ts:52-91 | `isConnected` holds exactly when the latest lifecycle callback was a connect |
| `Session.LinkEventsKeepTelemetry` | app/hooks/useWebSocket.ts:52-85 | lifecycle callbacks alone never change the telemetry values |
| `Session.BlowerParametersIgnored` | app/hooks/useWebSocket.ts:93-124 | blower-parameter messages never reach the state: the topic is not subscribed |
| `Session.ClosedLinkIgnoresMessages` | app/hooks/useWebSocket.ts:89-124 | with the link closed, no message changes the state |
| `Session.GarbledThenGoodDeviceStatus` | app/hooks/useWebSocket.ts:94-102 | a device-status body that fails to parse is dropped and the next good one still lands, other values untouched |
| `Session.RunAppend` | app/hooks/useWebSocket.ts:52-124 | running two histories in turn is running their concatenation |
| `Session.Step` | app/hooks/useWebSocket.ts:52-124 | one callback of either kind; no ensures of its own: `StepConsistent` states the invariant it keeps |
| `Session.Run` | app/hooks/useWebSocket.ts:52-124 | a history of callbacks in order; no ensures of its own: `RunConsistent`, `RunAppend` and `ConnectedIffLastLinkConnect` state it |
| `Session.MessagesKeepLink` | app/hooks/useWebSocket.ts:94-124 | messages never change `isConnected` or the client link |
| `Session.CommandAfterConnectIsPublished` | app/hooks/useWebSocket.ts:143-158 | after a connect and any messages, a command is published as exactly one frame |
| `Session.TelemetrySession.constructor` | app/hooks/useWebSocket.ts:29-34 | the hook starts in the initial state with nothing sent |
| `Session.TelemetrySession.HandleLink` | app/hooks/useWebSocket.ts:52-91 | a lifecycle callback updates the fields as `OnLink` says and sends nothing |
| `Session.TelemetrySession.HandleMessage` | app/hooks/useWebSocket.ts:94-124 | a topic message updates the fields as `OnMessage` says and sends nothing |
| `Session.TelemetrySession.SendCommand` | app/hooks/useWebSocket.ts:143-173 | the outbox grows by `Published` of the command and the state is unchanged |
| `DeviceMonitor.FindMaster` | app/components/DeviceMonitor.tsx:50-52 | `find` returns a listed master whose id reads as the selection, and nothing exactly when no master matches |
| `DeviceMonitor.FindMasterIsFirst` | app/components/DeviceMonitor.tsx:50-52 | `find` returns the first matching master |
| `DeviceMonitor.HandleConnect` | app/components/DeviceMonitor.tsx:44-60 | DISCONNECT_MASTER without address when the controller reports Connected; otherwise CONNECT_MASTER with a matching master's address, or nothing exactly when none matches |
| `DeviceMonitor.ConnectUsesFirstMatch` | app/components/DeviceMonitor.tsx:50-57 | the CONNECT_MASTER address is the first matching master's |
| `DeviceMonitor.DisconnectChosenWhileTransportDown` | app/components/DeviceMonitor.tsx:45-48 | the choice reads only the controller status: with the transport just closed it still picks DISCONNECT_MASTER, which then publishes nothing |
| `DeviceMonitor.HandleBlowerControl` | app/components/DeviceMonitor.tsx:62-66 | ON gives TURN_ON_BLOWER and OFF gives TURN_OFF_BLOWER, in both directions, with no address |
| `DeviceMonitor.HandleFrequencySet` | app/components/DeviceMonitor.tsx:68-70 | the frequency is forwarded unchanged exactly when the hook returns `sendFrequencyCommand` |
| `DeviceMonitor.BlowerParametersProp` | app/components/DeviceMonitor.tsx:15-23 | a property the hook does not return is undefined when destructured |
| `DeviceMonitor.FrequencySetNeverDispatched` | app/hooks/useWebSocket.ts:176-182 | the hook returns no `sendFrequencyCommand`, so a frequency set never reaches the broker |
| `DeviceMonitor.ParameterCardAlwaysUnavailable` | app/components/DeviceMonitor.tsx:19 | the hook returns no `blowerParameters`, so the parameter card shows N/A three times |
| `DeviceMonitor.Monitor.constructor` | app/components/DeviceMonitor.tsx:24-25 | no masters and an empty selection at mount |
| `DeviceMonitor.Monitor.ApplyMastersFetch` | app/components/DeviceMonitor.tsx:27-42 | only an ok response replaces the masters; a failure or a non-ok response keeps them |
| `DeviceMonitor.Monitor.SelectMaster` | app/components/DeviceMonitor.tsx:83 | the selector sets the selected id and nothing else |
| `DeviceMonitor.Monitor.Connect` | app/components/DeviceMonitor.tsx:44-60 | the button hands `HandleConnect`'s command, if any, to `sendCommand` |
| `DeviceMonitor.Monitor.BlowerControl` | app/components/DeviceMonitor.tsx:62-66 | the On/Off buttons hand their command to `sendCommand` |
| `Types.StatusLine` | app/components/blowerCard.tsx:37 | the status line of both cards (also connectionCard.tsx line 40): the status, or Unknown when null or empty |
| `BlowerCard.DeviceIdText` | app/components/blowerCard.tsx:40 | the device id, or N/A when null or empty |
| `BlowerCard.TurnOnDisabled` | app/components/blowerCard.tsx:48 | "Turn On" is disabled when the status is ON; no ensures of its own: `OnOffNotBothDisabled` states it |
| `BlowerCard.TurnOffDisabled` | app/components/blowerCard.tsx:56 | "Turn Off" is disabled when the status is OFF; no ensures of its own: `OnOffNotBothDisabled` states it |
| `BlowerCard.TrimStart` | app/components/blowerCard.tsx:20 | `parseFloat` skips leading StrWhiteSpace and only it: what it drops is all white space, and what remains does not start with white space |
| `BlowerCard.DigitRun` | app/components/blowerCard.tsx:20 | the longest run of leading digits |
| `BlowerCard.ReadFloat` | app/components/blowerCard.tsx:20 | a decimal reading has digit-only parts and at least one digit; which text reads as which value is stated by `ReadFloatDecimal`, `ReadFloatWhole`, `ReadFloatInfinity` and `ReadFloatNaN` |
| `BlowerCard.ReadFloatDecimal` | app/components/blowerCard.tsx:20 | `parseFloat` of white space, an optional sign, `w.f` and anything that does not continue the literal is the decimal `w.f` with that sign |
| `BlowerCard.ReadFloatWhole` | app/components/blowerCard.tsx:20 | the same for digits without a dot: the reading is the integer with that sign |
| `BlowerCard.ReadFloatInfinity` | app/components/blowerCard.tsx:20 | `parseFloat` of white space, an optional sign and `Infinity`, whatever follows, is the infinity of that sign |
| `BlowerCard.ReadFloatNaN` | app/components/blowerCard.tsx:20 | `parseFloat` of white space, an optional sign and a text that starts no literal (empty, a lone dot, a letter other than the start of `Infinity`) is NaN |
| `BlowerCard.HandleFrequencySubmit` | app/components/blowerCard.tsx:19-25 | NaN sends nothing; a negative value with a non-zero digit in its integer part or its first 300 fraction digits sends nothing; a plain decimal with at most two fraction digits is sent as its hundredths, never negative; +Infinity is sent as Infinity and -Infinity not at all |
| `BlowerCard.HundredthsExact` | app/components/blowerCard.tsx:23 | the wire value is exactly 100 times the decimal typed |
| `BlowerCard.SubmitHundredths` | app/components/blowerCard.tsx:19-25 | `w.f` with at most two fraction digits is sent as the digits read as hundredths |
| `BlowerCard.SubmitThreeAndAHalf` | app/components/blowerCard.tsx:19-25 | 3.5 is sent as 350 |
| `BlowerCard.SubmitMinusOne` | app/components/blowerCard.tsx:21 | -1 sends nothing |
| `BlowerCard.SubmitNotANumber` | app/components/blowerCard.tsx:20-21 | a text that is not a number sends nothing |
| `BlowerCard.SubmitWithoutNumber` | app/components/blowerCard.tsx:17-21 | the field's initial empty text, a lone sign and a lone dot send nothing |
| `BlowerCard.OnOffNotBothDisabled` | app/components/blowerCard.tsx:48-56 | the two buttons are never both disabled, and both are enabled without a status |
| `BlowerParameterCard.Render` | app/components/blowerParameterCard.tsx:27-41 | null parameters show N/A three times; otherwise the formatted values carry the suffixes Hz, A and V |
| `BlowerParameterCard.FormatFixed` | app/components/blowerParameterCard.tsx:10-12 | `(n / 10^k).toFixed(k)` for an integer n; no ensures of its own: `FixedDigitsParts` and `FormatFixedRoundTrip` state it |
| `BlowerParameterCard.FormatFrequency` | app/components/blowerParameterCard.tsx:10 | `formatFrequency`; no ensures of its own: `FrequencyRoundTrip` and `FrequencyDisplayFeedsBack` state it |
| `BlowerParameterCard.FormatAmpere` | app/components/blowerParameterCard.tsx:11 | `formatAmpere`, the same rule as `formatFrequency`; no ensures of its own: `FormatFixedRoundTrip` with k = 2 states it |
| `BlowerParameterCard.FormatVoltage` | app/components/blowerParameterCard.tsx:12 | `formatVoltage`; no ensures of its own: `VoltageRoundTrip` states it |
| `BlowerParameterCard.FixedDigitsParts` | app/components/blowerParameterCard.tsx:10-12 | `toFixed(k)` of `m / 10^k` is the quotient, a dot and the remainder padded to exactly k digits |
| `BlowerParameterCard.DotJoin` | app/components/blowerParameterCard.tsx:10-12 | deleting the dot between two digit runs leaves both runs side by side |
| `BlowerParameterCard.FixedDigitsWithoutDot` | app/components/blowerParameterCard.tsx:10-12 | without its dot, the text of a non-negative value is a run of digits worth the wire value |
| `BlowerParameterCard.FormatFixedRoundTrip` | app/components/blowerParameterCard.tsx:10-12 | deleting the dot and reading the text as an integer gives the wire value back, sign included |
| `BlowerParameterCard.FrequencyRoundTrip` | app/components/blowerParameterCard.tsx:10 | the round trip for `formatFrequency` (and `formatAmpere`, the same rule) |
| `BlowerParameterCard.VoltageRoundTrip` | app/components/blowerParameterCard.tsx:12 | the round trip for `formatVoltage` |
| `BlowerParameterCard.FrequencyDisplayFeedsBack` | app/components/blowerParameterCard.tsx:10 | for wire values 0 ≤ n < 10^15, a displayed frequency typed into the blower card's field is sent as the same wire value |
| `BlowerParameterCard.FormatExamples` | app/components/blowerParameterCard.tsx:10-12 | 5000 shows 50.00, -5 shows -0.05, voltage 2305 shows 230.5 |
| `ConnectionCard.ButtonLabel` | app/components/connectionCard.tsx:76-78 | Disconnect exactly when the controller reports Connected, Connect otherwise |
| `ConnectionCard.ButtonDisabled` | app/components/connectionCard.tsx:70-74 | disabled exactly when the controller is not Connected and nothing is selected |
| `ConnectionCard.MasterIdText` | app/components/connectionCard.tsx:43 | N/A when no status or a master id of 0; otherwise a numeral that reads back as the id |
| `ConnectionCard.MasterIdUnavailableIff` | app/components/connectionCard.tsx:43 | N/A is shown exactly when there is no status or the master id is 0 |
| `ConnectionCard.OptionValues` | app/components/connectionCard.tsx:53-54 | one option per master, in order, whose value matches that master's id string |
| `ConnectionCard.SelectableMasterFound` | app/components/connectionCard.tsx:54 | with unique ids, selecting option i makes the monitor's lookup find master i |
| `ConnectionCard.EnabledConnectSendsSelected` | app/components/connectionCard.tsx:63-74 | with the controller down and option i selected, the button is enabled and sends CONNECT_MASTER with master i's address |
| `ConnectionCard.LabelMatchesCommand` | app/components/connectionCard.tsx:76-78 | the button reads Disconnect exactly when a click sends DISCONNECT_MASTER |
| `Window.SliceLast` | app/components/temperatureGraph.tsx:23 | `slice(-k)` is the suffix of length min(length, k); `slice(-0)` is the whole array |
| `Window.SuffixSameWindow` | app/components/temperatureChart.tsx:24 | a suffix at least as long as the window has the same window |
| `Window.SliceLastAppend` | app/components/temperatureGraph.tsx:21-24 | cutting before appending makes no difference once the result is cut again |
| `TemperatureChart.ChartUpdate` | app/components/temperatureChart.tsx:20-29 | realtime: the last 20 of previous plus new, ending with the new data's last point, unchanged for empty data; historical: the data exactly |
| `TemperatureChart.ReplayKeepsLastOfAll` | app/components/temperatureChart.tsx:21-24 | after any number of changes a realtime chart holds the last 20 of everything it was handed, repeats included |
| `TemperatureChart.Chart.constructor` | app/components/temperatureChart.tsx:18 | the chart starts empty |
| `TemperatureChart.Chart.OnPropsChange` | app/components/temperatureChart.tsx:20-29 | the effect sets `chartData` as `ChartUpdate` says |
| `TemperatureGraph.PushSample` | app/components/temperatureGraph.tsx:19-26 | the new window is at most 20 long, ends with the reading, and is the arrival-ordered tail of the previous window plus the reading |
| `TemperatureGraph.IsoDay` | app/components/temperatureGraph.tsx:34 | the date part of `toISOString()`; no ensures of its own: `IsoDayRoundTrip` and `IsoDayInjective` state it |
| `TemperatureGraph.IsoYearRoundTrip` | app/components/temperatureGraph.tsx:34 | the year as `toISOString` writes it, with four digits or a sign and six digits, reads back as the year |
| `TemperatureGraph.ReadIsoDayOfParts` | app/components/temperatureGraph.tsx:34 | a day text splits at its last two dashes |
| `TemperatureGraph.IsoDayRoundTrip` | app/components/temperatureGraph.tsx:34 | the `YYYY-MM-DD` text reads back as the day |
| `TemperatureGraph.IsoDayInjective` | app/components/temperatureGraph.tsx:34 | distinct days give distinct texts |
| `TemperatureGraph.DateParam` | app/components/temperatureGraph.tsx:33-35 | the date parameter is present exactly when a day is selected |
| `TemperatureGraph.LogsQuery` | app/components/temperatureGraph.tsx:33-37 | the query string of the log fetch; no ensures of its own: `LogsQueryInjective` states it |
| `TemperatureGraph.LogsQueryInjective` | app/components/temperatureGraph.tsx:33-37 | the query `page=n[&date=d]&size=10` determines the page and the day |
| `TemperatureGraph.Panel.constructor` | app/components/temperatureGraph.tsx:12-16 | page 0, one page, no day, no rows and an empty window |
| `TemperatureGraph.Panel.Query` | app/components/temperatureGraph.tsx:33-37 | the query the log effect sends for the current page and day; the handlers' ensures state how it changes |
| `TemperatureGraph.Panel.OnRealtimeData` | app/components/temperatureGraph.tsx:19-26 | a reading is pushed, and the window stays the last 20 arrivals in arrival order; null changes nothing; the cursor and rows are untouched |
| `TemperatureGraph.Panel.HandlePageChange` | app/components/temperatureGraph.tsx:53-55 | the page becomes the one asked for, unclamped, and the next log query asks for that page with the same day |
| `TemperatureGraph.Panel.HandleDateChange` | app/components/temperatureGraph.tsx:57-60 | the day becomes the one picked, or none, the page becomes 0, and the next log query asks for page 0 of that day |
| `TemperatureGraph.Panel.ApplyLogsResponse` | app/components/temperatureGraph.tsx:40-46 | an ok answer replaces rows and page count whatever cursor it was for, and never moves the cursor; a failure changes nothing |
| `TemperatureGraph.DuplicatesReachChart` | app/components/temperatureGraph.tsx:66-70 | readings a then b give windows [a] and [a, b], and the realtime chart then plots a, a, b |
| `TemperatureLogs.PageLabel` | app/components/temperatureLogs.tsx:122 | "Page x of y" where x reads as the page plus one and y as the page count |
| `TemperatureLogs.PageLabelOfEmptyResult` | app/components/temperatureLogs.tsx:122 | an empty result shows "Page 1 of 0" |
| `TemperatureLogs.PrevDisabled` | app/components/temperatureLogs.tsx:129 | `currentPage === 0`; no ensures of its own: `PrevClick` states it |
| `TemperatureLogs.NextDisabled` | app/components/temperatureLogs.tsx:138 | `currentPage === totalPages - 1`; no ensures of its own: `NextClick` and `NextEscapesRange` state it |
| `TemperatureLogs.PrevClick` | app/components/temperatureLogs.tsx:128-129 | enabled exactly off page 0, and asks for the page before |
| `TemperatureLogs.NextClick` | app/components/temperatureLogs.tsx:137-138 | enabled exactly off page `totalPages - 1`, and asks for the page after |
| `TemperatureLogs.ClicksStayInRange` | app/components/temperatureLogs.tsx:128-138 | from a page in range, every enabled click asks for a page in range |
| `TemperatureLogs.NextEscapesRange` | app/components/temperatureLogs.tsx:137-138 | at or past the page count (page 0 of none, say) Next stays enabled and asks for a page that does not exist |
| `TemperatureLogs.Rows` | app/components/temperatureLogs.tsx:96-114 | one row per log, in data order, carrying that log's id, timestamp, value, device, master and location |

## Left out

- The STOMP and SockJS client itself (app/hooks/useWebSocket.ts:47-86, 127-140) is left out: heartbeats, the 5-second reconnect timer, `activate` and `deactivate`, and the client options' own `onConnect`, which the handler installed afterwards replaces. The model sees the client only as lifecycle callbacks and topic messages.
- The model takes the client's own `connected` flag, which `sendCommand` tests, to be set by connect and cleared by a socket close or a disconnect. The three error callbacks clear only `isConnected`. This is an assumption of the model about the STOMP client library, which is not part of this model.
- A message body is modelled only as parsed or not. A body that is JSON but has another shape is not modelled; the hook stores it untyped.
- `console` logging and the `try`/`catch` around `publish` are left out, since `publish` is not modelled as throwing.
- The `fetch` calls and the environment variables are inputs: the base URL setting is a parameter, and each response is a `Fetched` value (failed, not ok, or ok with its decoded body).
- Time-zone handling is left out. The selected date is modelled as the calendar day that `toISOString` reports. Converting the picker's local midnight to that UTC day depends on the time zone, and so do the locale formatting of timestamps and date-fns `format`.
- Days are not checked against the length of their month.
- React scheduling is left out. Each effect is modelled as running once per prop change, and state updates are applied in call order.
- JSX, styling and recharts rendering are left out. So are `header.tsx`, `page.tsx`, `temperatureCard.tsx` and the floating-point display of temperatures.
- Lone surrogate characters cannot occur in a Dafny string, so their `\u` escapes in `JSON.stringify` are not modelled.
- BlowerCard.HandleFrequencySubmit: returns `BeyondModel` where the double arithmetic of `parseFloat(...) * 100` and `Math.round` is not followed. That covers:
  - inputs with an exponent
  - more than two fraction digits
  - an integer part of 10^13 or more
  - a negative value whose integer part and first 300 fraction digits are all zero but which is not zero, which may underflow to -0
- BlowerCard.HandleFrequencySubmit: a negative zero is sent as 0, because Dafny integers have no -0.
- Decimal.IntToString: writes the plain numeral. `Number.prototype.toString` switches to exponent form from magnitude 10^21, which the model does not follow; ids and page numbers stay far below it.
- BlowerParameterCard.FormatFixed: writes the exact decimal of n/10^k. `toFixed` on the double n/10^k gives the same text for |n| below 10^15, but not beyond, and not past 10^21, where it switches to exponent notation.
