/**
 * Program.cs, the poll loop around the two passes: restoring the spool at
 * start-up, one cycle (roster pass, delivery pass, save decision) and the
 * pause before the next cycle. Clock readings are inputs: the iteration's
 * length is given in TimeSpan ticks.
 */
module PollLoop {
  import opened Wrappers
  import opened Config
  import opened Events
  import opened Machines
  import opened Spool
  import opened Bus
  import opened Delivery

  /**
   * Start-up: a new spool, loaded from the file when the file exists
   * (readOk says whether reading it succeeds).
   */
  method OpenSpool(disk: Option<seq<string>>, readOk: bool) returns (spool: LocalQueue)
    ensures fresh(spool) && spool.Synced()
    ensures disk.Some? && readOk ==> spool.localTempQueue == disk.value && spool.queueFile == None
    ensures !(disk.Some? && readOk) ==> spool.localTempQueue == [] && spool.queueFile == disk
  {
    spool := new LocalQueue(disk);
    var present := spool.QueueFileExists();
    if present {
      var _ := spool.LoadQueue(readOk);
    }
  }

  /**
   * Start-up: load the configuration (a missing file stops the service), hand
   * it to the bus, and restore the spool from its file.
   */
  method Startup(file: Option<ConfigFile>, api: ApiCall, disk: Option<seq<string>>, readOk: bool)
    returns (config: Configuration?, bus: MonitoringQueue?, spool: LocalQueue?)
    requires file.Some? ==> ValidRoster(file.value.machineTools)
    requires ValidApi(api)
    ensures config == null <==> file.None?
    ensures config == null ==> bus == null && spool == null
    ensures config != null ==> fresh(config) && config.Valid()
    ensures config != null ==> config.machineTools == RosterAfterApi(file.value.machineTools, api)
    ensures config != null ==> config.pollingInterval == file.value.pollingInterval
    ensures config != null ==> bus != null && fresh(bus) && bus.published == []
    ensures config != null ==> bus.publishEnabled == config.esbPublish == file.value.esbPublish
    ensures config != null ==> spool != null && fresh(spool) && spool.Synced()
    ensures config != null && disk.Some? && readOk ==> spool.localTempQueue == disk.value && spool.queueFile == None
    ensures config != null && !(disk.Some? && readOk) ==> spool.localTempQueue == [] && spool.queueFile == disk
  {
    bus, spool := null, null;
    config := LoadConfig(file, api);
    if config == null {
      return;
    }
    bus := new MonitoringQueue(config);
    spool := OpenSpool(disk, readOk);
  }

  /**
   * One iteration of the poll loop body: poll every machine, deliver the
   * messages, and save a non-empty spool. samples, times and connected hold
   * one device outcome, one timestamp and one bus state per roster entry.
   */
  method PollCycle(roster: Roster, samples: seq<MachineReads>, times: seq<string>, connected: seq<bool>,
                   writeOk: bool, serialize: MessageInfo -> string, spool: LocalQueue, bus: MonitoringQueue)
    returns (messages: seq<string>, offline: nat, online: int, saveAttempted: bool, saved: bool)
    requires |samples| == |roster| && |times| == |roster| && |connected| == |roster|
    requires spool.Synced()
    modifies spool, bus`published
    ensures |messages| == |roster|
    ensures forall k :: 0 <= k < |roster| ==> messages[k] == serialize(EventFor(roster[k], samples[k], times[k]))
    ensures offline == CountOffline(roster, samples) && online == |roster| - offline && 0 <= online
    ensures DeliveryState(bus.published, spool.localTempQueue)
         == DeliverAll(DeliveryState(old(bus.published), old(spool.localTempQueue)), bus.publishEnabled, messages, connected)
    ensures bus.publishEnabled ==>
      bus.published + spool.localTempQueue == old(bus.published) + old(spool.localTempQueue) + messages
    ensures spool.Synced()
    ensures saveAttempted <==> spool.count > 0
    ensures saved <==> saveAttempted && writeOk
    ensures spool.queueFile == if saved then Some(spool.localTempQueue) else old(spool.queueFile)
  {
    var events;
    events, messages, offline := PollRoster(roster, samples, times, serialize);
    online := |roster| - offline;
    Deliver(messages, connected, spool, bus);
    saveAttempted, saved := false, false;
    if spool.count > 0 {
      saveAttempted := true;
      saved := spool.SaveQueue(writeOk);
    }
  }

  // ---- The pause between iterations ----

  const TicksPerSecond: int := 10_000_000

  /** C#'s integer division, which truncates toward zero. */
  function TruncDiv(a: int, b: int): int
    requires b > 0
  {
    if a >= 0 then a / b else -((-a) / b)
  }

  /** C#'s remainder, which takes the sign of the dividend. */
  function TruncRem(a: int, b: int): (r: int)
    requires b > 0
    ensures a >= 0 ==> 0 <= r < b
    ensures a < 0 ==> -b < r <= 0
  {
    if a >= 0 then a % b else -((-a) % b)
  }

  /** TimeSpan.Seconds: the seconds component of a duration, not its total. */
  function SecondsComponent(ticks: int): (s: int)
    ensures -59 <= s <= 59
    ensures ticks >= 0 ==> s >= 0
  {
    TruncRem(TruncDiv(ticks, TicksPerSecond), 60)
  }

  /** The pause, in seconds, as written: the polling interval less the seconds component, at least 1. */
  function Pause(pollingInterval: int, elapsedTicks: int): (p: int)
    ensures p >= 1
    ensures pollingInterval - SecondsComponent(elapsedTicks) > 0 ==> p == pollingInterval - SecondsComponent(elapsedTicks)
    ensures pollingInterval - SecondsComponent(elapsedTicks) <= 0 ==> p == 1
  {
    var deltaDelay := pollingInterval - SecondsComponent(elapsedTicks);
    if deltaDelay <= 0 then 1 else deltaDelay
  }

  /** The pause the code evidently intends: the interval less the whole seconds elapsed, at least 1. */
  function IntendedPause(pollingInterval: int, elapsedTicks: int): (p: int)
    ensures p >= 1
  {
    var deltaDelay := pollingInterval - TruncDiv(elapsedTicks, TicksPerSecond);
    if deltaDelay <= 0 then 1 else deltaDelay
  }

  /**
   * The intended pause starts the next iteration one polling interval after
   * the last one started, or 1 second after it ended when it overran.
   */
  lemma IntendedPauseIsTight(pollingInterval: int, elapsedTicks: int)
    requires elapsedTicks >= 0
    ensures var whole := TruncDiv(elapsedTicks, TicksPerSecond);
      var p := IntendedPause(pollingInterval, elapsedTicks);
      && whole + p >= pollingInterval
      && (p > 1 ==> whole + p == pollingInterval)
  {
  }

  /** Within the first minute of an iteration the written pause is the intended one. */
  lemma PauseAgreesUnderAMinute(pollingInterval: int, elapsedTicks: int)
    requires 0 <= elapsedTicks < 60 * TicksPerSecond
    ensures Pause(pollingInterval, elapsedTicks) == IntendedPause(pollingInterval, elapsedTicks)
  {
    var whole := TruncDiv(elapsedTicks, TicksPerSecond);
    assert 0 <= whole < 60;
    assert TruncRem(whole, 60) == whole;
  }

  /** Interval 10 s: a 3 s iteration pauses 7 s, a 15 s one pauses 1 s. */
  lemma PauseExamples()
    ensures Pause(10, 3 * TicksPerSecond) == 7
    ensures Pause(10, 15 * TicksPerSecond) == 1
    ensures Pause(10, 3 * TicksPerSecond + TicksPerSecond / 2) == 7
  {
  }

  /**
   * An iteration of 65 s with an interval of 60 s: the seconds component is 5,
   * so the written code pauses 55 s where 1 s is intended, and the next
   * iteration starts 120 s after this one.
   */
  lemma PauseIgnoresWholeMinutes()
    ensures SecondsComponent(65 * TicksPerSecond) == 5
    ensures Pause(60, 65 * TicksPerSecond) == 55
    ensures IntendedPause(60, 65 * TicksPerSecond) == 1
    ensures TruncDiv(65 * TicksPerSecond, TicksPerSecond) + Pause(60, 65 * TicksPerSecond) > 60 + 1
  {
    assert TruncDiv(65 * TicksPerSecond, TicksPerSecond) == 65;
  }
}
