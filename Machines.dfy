/**
 * Program.cs, the roster pass of one poll cycle: for each machine, read its
 * thermometer (and, for host 1, the second device as well), derive a status
 * and a representative temperature, and build the event.
 *
 * A device read is an input: two channel values in tenths of a degree, or a
 * failure (any exception thrown while talking to the device).
 */
module Machines {
  import opened Wrappers
  import opened Config
  import opened Events
  import opened Sorting

  // ---- Convert.ToByte / Convert.ToInt32 of the host string ----

  predicate AllDigits(s: string)
  {
    forall i :: 0 <= i < |s| ==> '0' <= s[i] <= '9'
  }

  /** A non-empty run of decimal digits. */
  predicate IsDigits(s: string)
  {
    |s| > 0 && AllDigits(s)
  }

  /** The value of a string of decimal digits. */
  function DigitsValue(s: string): nat
    requires AllDigits(s)
  {
    if |s| == 0 then 0
    else 10 * DigitsValue(s[..|s| - 1]) + (s[|s| - 1] as int - '0' as int)
  }

  /** Decimal parse that fails (throws, in the source) on a non-number or a value above bound. */
  function ParseBounded(s: string, bound: nat): Option<nat>
  {
    if IsDigits(s) && DigitsValue(s) <= bound then Some(DigitsValue(s)) else None
  }

  /** Convert.ToByte(host): the device's slave address. */
  function ToByte(s: string): Option<nat>
  {
    ParseBounded(s, 255)
  }

  /** Convert.ToInt32(host). */
  function ToInt32(s: string): Option<nat>
  {
    ParseBounded(s, 0x7fff_ffff)
  }

  /** The canonical decimal spelling of n. */
  function DecimalString(n: nat): string
  {
    if n < 10 then [('0' as int + n) as char]
    else DecimalString(n / 10) + [('0' as int + n % 10) as char]
  }

  /** Parsing inverts the decimal spelling. */
  lemma {:induction false} DecimalRoundTrip(n: nat)
    ensures IsDigits(DecimalString(n))
    ensures DigitsValue(DecimalString(n)) == n
  {
    var s := DecimalString(n);
    if n >= 10 {
      DecimalRoundTrip(n / 10);
      assert s[..|s| - 1] == DecimalString(n / 10);
    }
  }

  /** Every address 0..255 written in decimal is accepted by both conversions, with the same value. */
  lemma AddressesParse(n: nat)
    requires n <= 255
    ensures ToByte(DecimalString(n)) == Some(n)
    ensures ToInt32(DecimalString(n)) == Some(n)
  {
    DecimalRoundTrip(n);
  }

  /** Once ToByte has succeeded, ToInt32 of the same host gives the same number. */
  lemma ToInt32AgreesWithToByte(s: string)
    requires ToByte(s).Some?
    ensures ToInt32(s) == ToByte(s)
    ensures ToByte(s).value <= 255
  {
  }

  // ---- Readings and the per-machine rule ----

  /** One device read: its two measuring channels, or a failure. */
  datatype DeviceRead = Channels(first: int, second: int) | DeviceError

  /** The reads available to one machine in one cycle: its own device and device 2. */
  datatype MachineReads = MachineReads(primary: DeviceRead, auxiliary: DeviceRead)

  /** What the step decides for one machine; offline means an exception was caught. */
  datatype MachineState = MachineState(status: CNCStatus, temperature: int, offline: bool)

  /** A host that converts to 1 is a three-zone furnace whose zones are spread over devices 1 and 2. */
  predicate UsesSecondDevice(tool: MachineTool)
  {
    ToInt32(tool.cncHost) == Some(1)
  }

  /** The readings collected for one machine, in the order they are added. */
  function Collected(sample: MachineReads, withSecond: bool): seq<int>
    requires sample.primary.Channels?
    requires withSecond ==> sample.auxiliary.Channels?
  {
    [sample.primary.first, sample.primary.second]
      + (if withSecond then [sample.auxiliary.first, sample.auxiliary.second] else [])
  }

  /** True when some step of the try block throws. */
  predicate ReadFails(tool: MachineTool, sample: MachineReads)
  {
    ToByte(tool.cncHost).None?
    || sample.primary.DeviceError?
    || (UsesSecondDevice(tool) && sample.auxiliary.DeviceError?)
  }

  /**
   * The per-machine rule, stated with Max: an offline machine reports OFFLINE
   * and 0; otherwise the hottest reading, with START when it is above zero and
   * the initial OFFLINE when not. STOP is never produced.
   */
  function MachineSpec(tool: MachineTool, sample: MachineReads): (r: MachineState)
    ensures r.offline <==> ReadFails(tool, sample)
    ensures r.offline ==> r.status == OFFLINE && r.temperature == 0
    ensures !r.offline ==> (r.status == START <==> r.temperature > 0)
    ensures r.status == START || r.status == OFFLINE
  {
    if ReadFails(tool, sample) then MachineState(OFFLINE, 0, true)
    else
      var t := Max(Collected(sample, UsesSecondDevice(tool)));
      MachineState(if t > 0 then START else OFFLINE, t, false)
  }

  /** An online machine reports the hottest of its readings: 4 of them for host 1, 2 otherwise. */
  lemma HottestReading(tool: MachineTool, sample: MachineReads)
    requires !ReadFails(tool, sample)
    ensures var rs := Collected(sample, UsesSecondDevice(tool));
      && |rs| == (if UsesSecondDevice(tool) then 4 else 2)
      && MachineSpec(tool, sample).temperature in rs
      && forall x :: x in rs ==> x <= MachineSpec(tool, sample).temperature
  {
  }

  /** Host "1": the maximum over both devices' 4 readings. */
  lemma ThreeZoneFurnace(cncType: CNCType, a: int, b: int, c: int, d: int)
    ensures var tool := MachineTool(cncType, "1", 0);
      MachineSpec(tool, MachineReads(Channels(a, b), Channels(c, d))).temperature == Max([a, b, c, d])
  {
    AddressesParse(1);
    assert DecimalString(1) == "1";
    var tool := MachineTool(cncType, "1", 0);
    assert UsesSecondDevice(tool) && !ReadFails(tool, MachineReads(Channels(a, b), Channels(c, d)));
    assert Collected(MachineReads(Channels(a, b), Channels(c, d)), true) == [a, b, c, d];
  }

  /**
   * The try block of the roster loop: convert the host, read the device,
   * for host 1 read device 2, sort the readings and take the last one.
   */
  method ReadMachine(tool: MachineTool, sample: MachineReads) returns (r: MachineState)
    ensures r == MachineSpec(tool, sample)
  {
    var status := OFFLINE;
    var temperatures: seq<int> := [];
    var address := ToByte(tool.cncHost);
    if address.None? {
      return MachineState(OFFLINE, 0, true);
    }
    if sample.primary.DeviceError? {
      return MachineState(OFFLINE, 0, true);
    }
    temperatures := temperatures + [sample.primary.first, sample.primary.second];
    if ToInt32(tool.cncHost) == Some(1) {
      if sample.auxiliary.DeviceError? {
        return MachineState(OFFLINE, 0, true);
      }
      temperatures := temperatures + [sample.auxiliary.first, sample.auxiliary.second];
    }
    ghost var collected := temperatures;
    assert !ReadFails(tool, sample);
    assert collected == Collected(sample, UsesSecondDevice(tool));
    temperatures := Sort(temperatures);
    LastOfSortedIsMax(collected, temperatures);
    var temp := temperatures[|temperatures| - 1];
    if temp > 0 {
      status := START;
    }
    r := MachineState(status, temp, false);
  }

  // ---- Events and the roster pass ----

  /** The event built for a machine (CNCType is always Paragraph, 13). */
  function MakeEvent(entry: Entry, state: MachineState, eventTime: string): MessageInfo
  {
    MessageInfo(
      idMachine := entry.id,
      cncType := Paragraph.Ordinal(),
      status := state.status.Ordinal(),
      temperature := state.temperature,
      temperature2 := 0,
      temperature3 := 0,
      eventTime := eventTime,
      serviceName := entry.tool.cncType.Name() + "Service")
  }

  function EventFor(entry: Entry, sample: MachineReads, eventTime: string): MessageInfo
  {
    MakeEvent(entry, MachineSpec(entry.tool, sample), eventTime)
  }

  /** What every event of the service carries. */
  lemma EventFields(entry: Entry, sample: MachineReads, eventTime: string)
    ensures var e := EventFor(entry, sample, eventTime);
      && e.idMachine == entry.id
      && e.cncType == 13
      && (e.status == 1 || e.status == 4)
      && e.status != CNCStatus.STOP.Ordinal()
      && (e.status == 1 <==> !ReadFails(entry.tool, sample) && e.temperature > 0)
      && (ReadFails(entry.tool, sample) ==> e.status == 4 && e.temperature == 0)
      && e.temperature2 == 0 && e.temperature3 == 0
      && e.eventTime == eventTime
      && e.serviceName == entry.tool.cncType.Name() + "Service"
  {
  }

  /** The number of roster entries whose read fails. */
  function CountOffline(roster: Roster, samples: seq<MachineReads>): (n: nat)
    requires |samples| == |roster|
    ensures n <= |roster|
  {
    if |roster| == 0 then 0
    else
      var k := |roster| - 1;
      CountOffline(roster[..k], samples[..k]) + (if ReadFails(roster[k].tool, samples[k]) then 1 else 0)
  }

  /** With every read failing, all machines are offline and none is online. */
  lemma {:induction false} AllFailuresAllOffline(roster: Roster, samples: seq<MachineReads>)
    requires |samples| == |roster|
    requires forall k :: 0 <= k < |samples| ==> samples[k].primary.DeviceError?
    ensures CountOffline(roster, samples) == |roster|
  {
    if |roster| > 0 {
      var k := |roster| - 1;
      AllFailuresAllOffline(roster[..k], samples[..k]);
    }
  }

  /** With no read failing, no machine is offline. */
  lemma {:induction false} NoFailuresNoneOffline(roster: Roster, samples: seq<MachineReads>)
    requires |samples| == |roster|
    requires forall k :: 0 <= k < |roster| ==> !ReadFails(roster[k].tool, samples[k])
    ensures CountOffline(roster, samples) == 0
  {
    if |roster| > 0 {
      var k := |roster| - 1;
      NoFailuresNoneOffline(roster[..k], samples[..k]);
    }
  }

  /** Events of a dictionary roster name distinct machines. */
  lemma EventIdsDistinct(roster: Roster, samples: seq<MachineReads>, times: seq<string>)
    requires |samples| == |roster| && |times| == |roster|
    requires IsRoster(roster)
    ensures forall j, k :: 0 <= j < k < |roster| ==>
      EventFor(roster[j], samples[j], times[j]).idMachine != EventFor(roster[k], samples[k], times[k]).idMachine
  {
  }

  /** The loop body for one roster entry: its event, the event serialized, and whether it counts as offline. */
  method PollEntry(entry: Entry, sample: MachineReads, eventTime: string, serialize: MessageInfo -> string)
    returns (event: MessageInfo, message: string, failed: bool)
    ensures event == EventFor(entry, sample, eventTime)
    ensures message == serialize(event)
    ensures failed == ReadFails(entry.tool, sample)
  {
    var state := ReadMachine(entry.tool, sample);
    failed := state.offline;
    event := MakeEvent(entry, state, eventTime);
    message := serialize(event);
  }

  /** The events of a roster pass, in roster order. */
  function RosterEvents(roster: Roster, samples: seq<MachineReads>, times: seq<string>): (events: seq<MessageInfo>)
    requires |samples| == |roster| && |times| == |roster|
    ensures |events| == |roster|
  {
    if |roster| == 0 then []
    else
      var k := |roster| - 1;
      RosterEvents(roster[..k], samples[..k], times[..k]) + [EventFor(roster[k], samples[k], times[k])]
  }

  /** Event k of a roster pass is the event for roster entry k. */
  lemma {:induction false} RosterEventsAt(roster: Roster, samples: seq<MachineReads>, times: seq<string>, k: nat)
    requires |samples| == |roster| && |times| == |roster|
    requires k < |roster|
    ensures RosterEvents(roster, samples, times)[k] == EventFor(roster[k], samples[k], times[k])
  {
    var n := |roster| - 1;
    if k < n {
      RosterEventsAt(roster[..n], samples[..n], times[..n], k);
    }
  }

  /** The serialized form of each event, in order. */
  function SerializeEach(events: seq<MessageInfo>, serialize: MessageInfo -> string): (messages: seq<string>)
    ensures |messages| == |events|
  {
    if |events| == 0 then []
    else SerializeEach(events[..|events| - 1], serialize) + [serialize(events[|events| - 1])]
  }

  lemma {:induction false} SerializeEachAt(events: seq<MessageInfo>, serialize: MessageInfo -> string, k: nat)
    requires k < |events|
    ensures SerializeEach(events, serialize)[k] == serialize(events[k])
  {
    var n := |events| - 1;
    if k < n {
      SerializeEachAt(events[..n], serialize, k);
    }
  }

  /** Extending a roster prefix by one entry extends its events and offline count by that entry's. */
  lemma RosterStep(roster: Roster, samples: seq<MachineReads>, times: seq<string>, i: nat)
    requires |samples| == |roster| && |times| == |roster| && i < |roster|
    ensures RosterEvents(roster[..i + 1], samples[..i + 1], times[..i + 1])
         == RosterEvents(roster[..i], samples[..i], times[..i]) + [EventFor(roster[i], samples[i], times[i])]
    ensures CountOffline(roster[..i + 1], samples[..i + 1])
         == CountOffline(roster[..i], samples[..i]) + (if ReadFails(roster[i].tool, samples[i]) then 1 else 0)
  {
    assert roster[..i + 1][..i] == roster[..i];
    assert samples[..i + 1][..i] == samples[..i];
    assert times[..i + 1][..i] == times[..i];
  }

  /**
   * The roster loop: one event and one serialized message per entry, in
   * roster order, and the count of machines whose read failed.
   */
  method PollRoster(roster: Roster, samples: seq<MachineReads>, times: seq<string>, serialize: MessageInfo -> string)
    returns (events: seq<MessageInfo>, messages: seq<string>, offline: nat)
    requires |samples| == |roster| && |times| == |roster|
    ensures |events| == |roster| && |messages| == |roster|
    ensures forall k :: 0 <= k < |roster| ==> events[k] == EventFor(roster[k], samples[k], times[k])
    ensures forall k :: 0 <= k < |roster| ==> messages[k] == serialize(events[k])
    ensures offline == CountOffline(roster, samples) && offline <= |roster|
  {
    events, messages, offline := [], [], 0;
    var i := 0;
    while i < |roster|
      invariant 0 <= i <= |roster|
      invariant |messages| == i
      invariant events == RosterEvents(roster[..i], samples[..i], times[..i])
      invariant messages == SerializeEach(events, serialize)
      invariant offline == CountOffline(roster[..i], samples[..i])
    {
      var event, message, failed := PollEntry(roster[i], samples[i], times[i], serialize);
      if failed {
        offline := offline + 1;
      }
      events := events + [event];
      messages := messages + [message];
      assert events[..i] == events[..|events| - 1];
      RosterStep(roster, samples, times, i);
      i := i + 1;
    }
    assert roster[..i] == roster;
    assert samples[..i] == samples;
    assert times[..i] == times;
    forall k | 0 <= k < |roster|
      ensures events[k] == EventFor(roster[k], samples[k], times[k])
      ensures messages[k] == serialize(events[k])
    {
      RosterEventsAt(roster, samples, times, k);
      SerializeEachAt(events, serialize, k);
    }
  }
}
