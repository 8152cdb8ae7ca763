# Paragraph.Service poller: the store-and-forward pipeline in Dafny

Paragraph.Service polls Paragraph PL20 thermometers on a serial line. Each
cycle it turns every machine of the roster into an event and hands the events
to a RabbitMQ bus. An event that finds the bus disconnected goes into a local
queue (the spool), which is saved to `LocalQueue.json` between cycles. The
spool is published ahead of the next event that finds the bus connected.

This project models that pipeline:

- `Spool` (LocalQueue.cs): the spool as a class. It has the in-memory queue,
  the separately kept `Count` field, and the spool file as a field
  `queueFile: Option<seq<string>>` (`None` when the file does not exist).
- `Machines` (Program.cs, the roster pass): the per-machine rule. It converts
  the host, reads the device, reads device 2 as well for host 1, sorts the
  readings, and takes the last one as the temperature with a START/OFFLINE
  status. It also builds the event, and the loop over the roster that counts
  offline machines.
- `Delivery` (Program.cs, the delivery pass): the loop that either drains the
  spool and publishes, or spools. There is a specification function
  `DeliverAll` and lemmas for no loss and no reordering.
- `PollLoop` (Program.cs): start-up spool restore, one whole cycle with the
  end-of-cycle save decision, and the pause before the next cycle.
- `Config` (Configuration.cs): the `CNCType` and `CNCStatus` enums with
  their ordinals, the roster, the web API override rule, and `LoadConfig`.
- `Events` (MessageInfo.cs): the event record.
- `Bus` (MonitoringQueue.cs): the bus reduced to a publish log and the
  `ESBPublish` switch.
- `Sorting`: `List.Sort` and the maximum it is used to find.

Inputs replace the environment:
- A device read is `Channels(first, second)` in tenths of a degree, or
  `DeviceError`.
- The bus connection state is one `bool` per message.
- Each file operation gets a `writeOk`/`readOk` flag, true when the operation
  succeeds.
- Event timestamps are strings.
- The iteration length is a count of TimeSpan ticks.
- JSON serialization of an event is a function parameter `serialize`.

The roster (`Dictionary<long, MachineTool>`) is a sequence of entries in
enumeration order. `IsRoster` says its ids are distinct.

Definitions that the lemmas in the table are about:
- `Machines.ToByte` and `Machines.ToInt32`: `Convert.ToByte` and `Convert.ToInt32` of the host (Program.cs:118, 132).
- `Machines.MakeEvent` and `Machines.EventFor`: the `MessageInfo` built for one machine (Program.cs:159-167).
- `Delivery.DeliverOne` and `Delivery.DeliverAll`: one message and a whole batch of the delivery pass (Program.cs:186-207).
- `Config.RosterAfterApi` and `Config.RosterAfterApiAsWritten`: the web API override, as intended and as written (Configuration.cs:250-262).

Where the design description and the code differ, the model follows the code:
- A machine whose hottest reading is not above zero keeps the initial
  OFFLINE status. STOP is never produced.
- A failed publish is not spooled again: `Publish` swallows the failure.
- The spool file and the in-memory queue can both hold the pending entries.
  This happens after every successful save, and nothing prevents it.
- The pause is computed from the seconds component of the iteration length
  (see Findings).

## Model

| member | source | states |
|---|---|---|
| Config.CNCTypeOf | Configuration.cs:10-84 | the cast from an int yields a controller type exactly for 0..13, and the one with that ordinal |
| Config.CNCTypeOrdinals | Configuration.cs:10-84 | every controller type has ordinal at most 13, converts back to itself, distinct types have distinct ordinals, and Paragraph is 13 |
| Config.CNCTypeNamesDistinct | Configuration.cs:10-84 | distinct controller types have distinct non-empty names, so a service name identifies its controller type |
| Config.CNCStatusOf | Configuration.cs:89-120 | the cast from an int yields a status exactly for 0..5 (UNKNOWN, START, STOP, HOLD, OFFLINE, ONLINE), and the one with that ordinal |
| Config.CNCStatusOrdinals | Configuration.cs:89-120 | every status has ordinal at most 5, converts back to itself, and distinct statuses have distinct ordinals |
| Config.RosterAfterApiSource | Configuration.cs:243-262 | a successful, non-empty API answer becomes the roster, and the roster changes in no other case: a failed or empty answer leaves the file's roster, and so does a thrown call under the intended rule; the result holds distinct ids |
| Config.ApiExceptionEscapes | Configuration.cs:247-261 | as written, every returned API call gives the documented rule, while a thrown one escapes instead of keeping the file's roster |
| Config.Configuration.constructor | Configuration.cs:230-231 | the deserialized settings hold the file's roster, polling interval and publish switch |
| Config.SetMachineTools | Configuration.cs:250-262 | the roster is replaced by the API's exactly when the call reports success and the dictionary is non-empty, and is otherwise unchanged; for a thrown call this is the intended rule of the remark at lines 247-249, not the written code, which lets the exception escape |
| Config.LoadConfig | Configuration.cs:226-241 | a missing file gives null; otherwise a fresh configuration with the file's settings and the roster after the API override (for a thrown call the intended rule, keeping the file's roster, where the written code throws) |
| Spool.LocalQueue.constructor | LocalQueue.cs:31-34 | a new spool is empty with Count 0 and the file as found on disk |
| Spool.LocalQueue.Clear | LocalQueue.cs:39-43 | the queue becomes empty and Count 0; the file is untouched |
| Spool.LocalQueue.Enqueue | LocalQueue.cs:49-53 | the message is appended at the back, earlier messages keep their order, and Count becomes the new length |
| Spool.LocalQueue.Dequeue | LocalQueue.cs:59-63 | the front message is returned and removed; Count is the length before removal, one more than the length after; an empty queue yields nothing with Count 0 |
| Spool.LocalQueue.QueueFileExists | LocalQueue.cs:69-79 | true exactly when the spool file exists |
| Spool.LocalQueue.SaveQueue | LocalQueue.cs:85-112 | with Count > 0 and a working write, the file becomes the whole queue in order and the result is true; otherwise false with the file unchanged; the queue and Count never change |
| Spool.LocalQueue.LoadQueue | LocalQueue.cs:118-156 | succeeds exactly when Count is 0, the file exists and reading works; then the queue is the file's sequence, the file is deleted and Count is the loaded length; otherwise nothing changes |
| Spool.SaveClearLoad | LocalQueue.cs:85-156 | saving a non-empty spool, clearing it and loading it back restores exactly the saved queue and leaves no file |
| Bus.MonitoringQueue.constructor | MonitoringQueue.cs:28-85 | a new bus, once Connect has kept the configuration (line 84), has published nothing and carries the configuration's ESBPublish switch, which Publish reads at line 103 |
| Bus.MonitoringQueue.Publish | MonitoringQueue.cs:98-118 | the message is appended to the bus log when publishing is enabled, and nothing happens when it is not |
| Sorting.Max | Program.cs:139-140 | the maximum is an element of the readings and no reading exceeds it |
| Sorting.Insert | Program.cs:139 | inserting into an ascending sequence keeps it ascending and adds exactly that element |
| Sorting.Sort | Program.cs:139 | the sorted readings are ascending and a permutation of the readings |
| Sorting.LastOfSortedIsMax | Program.cs:139-140 | the last element of an ascending permutation of the readings is their maximum |
| Machines.DecimalRoundTrip | Program.cs:118 | every natural number's decimal spelling is a digit string that parses back to that number; the spelling function `DecimalString` has no counterpart in the service and exists to show that the model's `Convert.ToByte` parser accepts every decimal address |
| Machines.AddressesParse | Program.cs:118-132 | every address 0..255 written in decimal is accepted by Convert.ToByte and Convert.ToInt32 with its value |
| Machines.ToInt32AgreesWithToByte | Program.cs:118-132 | when the host converts to a byte, converting it to an int gives the same value, so the host-1 test is about the device address |
| Machines.MachineSpec | Program.cs:105-156 | a machine is offline exactly when the host does not convert or a needed device read fails, and then reports OFFLINE and 0; otherwise it reports START exactly when its temperature is above 0; STOP is never produced |
| Machines.HottestReading | Program.cs:118-140 | an online machine's temperature is one of its readings and at least every other; host 1 contributes 4 readings, any other host 2 |
| Machines.ThreeZoneFurnace | Program.cs:122-140 | host "1" reports the maximum of the two channels of its own device and the two of device 2 |
| Machines.ReadMachine | Program.cs:105-156 | the try block, with sort-then-last, yields the status, temperature and offline flag of the per-machine rule stated with the maximum |
| Machines.EventFields | Program.cs:159-167 | every event carries the roster key, CNCType 13, the status ordinal 1 or 4 (never STOP), 1 exactly for an online machine above 0, temperature 0 when offline, zero second and third temperatures, the event time, and the machine type's name followed by "Service" |
| Machines.CountOffline | Program.cs:149-156 | the number of machines whose read failed never exceeds the roster size |
| Machines.AllFailuresAllOffline | Program.cs:149-156 | when every device read fails, every machine is counted offline |
| Machines.NoFailuresNoneOffline | Program.cs:149-156 | when no read fails, no machine is counted offline |
| Machines.PollEntry | Program.cs:105-170 | the loop body gives the entry's event, that event serialized, and whether the entry's read failed |
| Machines.EventIdsDistinct | Program.cs:103-164 | the events of a roster name distinct machines |
| Machines.RosterEvents | Program.cs:103-175 | a roster pass produces exactly one event per roster entry |
| Machines.RosterEventsAt | Program.cs:103-175 | event k of the pass is the event for entry k, so events follow roster order |
| Machines.SerializeEachAt | Program.cs:169-170 | message k is event k serialized |
| Machines.PollRoster | Program.cs:103-179 | the roster loop yields one event and one message per entry in roster order, and the count of offline machines |
| Delivery.NoLossNoReorder | Program.cs:182-208 | with publishing enabled, the bus log followed by the spool is always the old log, the old spool and the new messages, in that order |
| Delivery.PublishedOnlyGrows | Program.cs:182-208 | delivery only appends to the bus log: what was published stays, in place |
| Delivery.DisabledPublishesNothing | Program.cs:186-202 | with publishing disabled nothing reaches the bus, although the spool is still cleared when connected |
| Delivery.OutageSpoolsAll | Program.cs:203-207 | while disconnected, every message is appended to the spool in order and nothing is published |
| Delivery.LastConnectedDrains | Program.cs:186-202 | if the last message of a cycle finds the bus connected, the spool ends empty |
| Delivery.DeliverConcat | Program.cs:182-208 | delivering two batches one after the other equals delivering their concatenation, so successive cycles compose |
| Delivery.OutageThenRecovery | Program.cs:182-208 | three disconnected cycles of one event each, then a connected one, put the four events on the bus in generation order and leave the spool empty |
| Delivery.PublishAll | Program.cs:192-195 | the spooled messages are published front first, all of them, when publishing is enabled |
| Delivery.Deliver | Program.cs:182-208 | the delivery loop makes the bus log and the spool what DeliverAll prescribes, loses and reorders nothing, keeps Count in agreement with the queue and leaves the file alone |
| PollLoop.Startup | Program.cs:47-68 | a missing configuration file stops the service before anything else; otherwise the configuration holds the file's settings and the overridden roster, the bus starts with an empty log and the configuration's ESBPublish switch, and the spool is restored as OpenSpool states |
| PollLoop.OpenSpool | Program.cs:61-68 | at start-up the spool holds the file's messages and the file is gone when the file exists and reads; otherwise the spool is empty and the file is untouched |
| PollLoop.PollCycle | Program.cs:96-221 | one iteration yields a message per roster entry in order, offline and online counts summing to the roster size, delivery as DeliverAll prescribes without loss, and a save attempted exactly when Count > 0 afterwards |
| PollLoop.TruncRem | Program.cs:224-227 | the C# remainder lies in 0..b-1 for a non-negative dividend and in -(b-1)..0 for a negative one |
| PollLoop.SecondsComponent | Program.cs:224-227 | the seconds component of a duration lies in -59..59, and in 0..59 for a non-negative duration |
| PollLoop.Pause | Program.cs:227-232 | the pause is the polling interval less the seconds component when that is positive, and exactly 1 second otherwise |
| PollLoop.IntendedPause | Program.cs:226-232 | the corrected pause is at least 1 second |
| PollLoop.IntendedPauseIsTight | Program.cs:226-232 | the corrected pause never lets the next iteration start before one polling interval, and never waits longer than needed unless it is the 1-second minimum |
| PollLoop.PauseAgreesUnderAMinute | Program.cs:224-232 | for an iteration shorter than a minute, the written pause equals the corrected one |
| PollLoop.PauseExamples | Program.cs:227-232 | with a 10-second interval, a 3-second iteration pauses 7 seconds and a 15-second one pauses 1 second |
| PollLoop.PauseIgnoresWholeMinutes | Program.cs:224-232 | a 65-second iteration with a 60-second interval pauses 55 seconds as written, where 1 second is intended |

## Left out

- Paragraph.cs: the Modbus RTU exchanges are inputs here. These are Read Input Registers (function code 0x04, section 6.4 of the Modbus Application Protocol Specification V1.1b3) and Read Holding Registers (function code 0x03, section 6.3). Each device read yields two readings or a failure.
- Paragraph.cs: decoding IEEE 754 binary32 values from register pairs is floating point inside a foreign library. Readings are integers in tenths of a degree.
- Program.cs: `Math.Round(…, 1)` and the `float` casts are not modelled. `temp > 0` is compared on these integers. NaN readings are not modelled.
- Machines.ToByte: accepts only plain decimal digits. `Convert.ToByte` also accepts surrounding white space and a sign, and it maps a null host to 0.
- Config.CNCTypeOf: an out-of-range `(CNCType)n` cast (possible from the web API) has no name in the enum. The model's roster holds only declared controller types.
- JSON: serializing events, the configuration file and the spool file is not modelled. A serialized event is `serialize(event)`. The configuration file is its parsed `ConfigFile`. The spool file is the sequence it holds.
- Spool.LocalQueue.LoadQueue: does not model a `File.Delete` failure after the queue was replaced, which changes the queue but not Count and keeps the file. It also does not model a file holding `null`. A failing read changes nothing.
- Spool.LocalQueue.SaveQueue: a failed write leaves the file as it was. Truncation by a write that fails halfway is not modelled.
- Bus.MonitoringQueue.Publish: a broker exception is swallowed and that message is lost. The model lets every enabled publish reach the log. Opening the connection and channel, a failed `Connect`, connection recovery and `Close` are not modelled; of `Connect` only the kept configuration is.
- Delivery.Deliver: requires `Count` to equal the queue length. This always holds in the poll loop, because the spool is touched only by the constructor, `LoadQueue`, `Enqueue` and `Clear`.
- WebApi.cs: the HTTP request, the JSON parsing and the first-wins rule for duplicate ids are not modelled. The API is seen only through its answer (`ok` and the dictionary) or an exception. The `cncType` query argument of `LoadConfig` is not modelled.
- Program.cs:16-60, 70-92: logging, dependency injection, the bus connection at start-up, the serial port and the start-up aborts are not modelled. The spool restore at lines 61-68 is modelled.
- Program.cs: `DateTime.Now` is an input (event times, iteration length in ticks). `Thread.Sleep` becomes the returned pause. The `int` overflow of `deltaDelay * 1000` is not modelled.
- Program.cs:94-239: the endless loop is one modelled iteration. `DeliverConcat` shows that successive iterations compose. The shutdown code after the loop (Program.cs:241-246) is unreachable.
- The 32-bit `int` range of `Count`, the offline counter and the polling interval is not modelled. Dictionary enumeration order is taken to be the roster's sequence order.

## Findings

| source | as written | input that shows it | evidently intended | confidence | as-written member | corrected member |
|---|---|---|---|---|---|---|
| Program.cs:224-232 | the pause is `PollingInterval - IterationDelay.Seconds`, and `Seconds` is only the seconds component (0-59) of the duration | interval 60 s, iteration 65 s: the component is 5, so the pause is 55 s and the next iteration starts 120 s after this one | subtract the whole seconds elapsed, with the 1-second minimum (here 1 s) | high; not executed | PollLoop.Pause (shown by PollLoop.PauseIgnoresWholeMinutes) | PollLoop.IntendedPause (proved by PollLoop.IntendedPauseIsTight) |
| Configuration.cs:247-261 | `SetMachineTools` does not catch the exception that `GetMachineTools` lets escape from `HttpClient.GetAsync(…).Result` (WebApi.cs:50), so `LoadConfig` throws | inventory API host unreachable at start-up: the HTTP call throws and the service stops before polling | as the remark at lines 247-249 says, a failed API call keeps the file's roster | high; not executed | Config.RosterAfterApiAsWritten (shown by Config.ApiExceptionEscapes) | Config.RosterAfterApi (proved by Config.RosterAfterApiSource; used by Config.LoadConfig), and Config.SetMachineTools, which keeps the roster on a thrown call |
