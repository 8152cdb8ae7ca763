/**
 * Configuration.cs: the controller-type and status enumerations, the machine
 * roster and the rule by which the roster from the inventory web API overrides
 * the one read from the configuration file.
 */
module Config {
  import opened Wrappers

  /** The signed 64-bit machine id (C# long). */
  newtype int64 = x: int | -0x8000_0000_0000_0000 <= x < 0x8000_0000_0000_0000

  /** Controller types, in declaration order. */
  datatype CNCType =
    | Generic | Fanuc | OpenControl | CMM | Laser | TNC530 | Okuma
    | Mitsubishi | PowerMeter | Hurco | Termodat | KMSMonitor | KMSMaster | Paragraph
  {
    /** The enum's integer value. */
    function Ordinal(): nat
    {
      match this
      case Generic => 0
      case Fanuc => 1
      case OpenControl => 2
      case CMM => 3
      case Laser => 4
      case TNC530 => 5
      case Okuma => 6
      case Mitsubishi => 7
      case PowerMeter => 8
      case Hurco => 9
      case Termodat => 10
      case KMSMonitor => 11
      case KMSMaster => 12
      case Paragraph => 13
    }

    /** The enum member's identifier, as Enum.ToString() gives it. */
    function Name(): string
    {
      CNCTypeNames[Ordinal()]
    }
  }

  /** The identifiers of the controller types, indexed by ordinal. */
  const CNCTypeNames: seq<string> := [
    "Generic", "Fanuc", "OpenControl", "CMM", "Laser", "TNC530", "Okuma",
    "Mitsubishi", "PowerMeter", "Hurco", "Termodat", "KMSMonitor", "KMSMaster", "Paragraph"]

  /** The cast (CNCType)n restricted to the declared values. */
  function CNCTypeOf(n: int): (t: Option<CNCType>)
    ensures t.Some? <==> 0 <= n <= 13
    ensures t.Some? ==> t.value.Ordinal() == n
  {
    if n == 0 then Some(Generic)
    else if n == 1 then Some(Fanuc)
    else if n == 2 then Some(OpenControl)
    else if n == 3 then Some(CMM)
    else if n == 4 then Some(Laser)
    else if n == 5 then Some(TNC530)
    else if n == 6 then Some(Okuma)
    else if n == 7 then Some(Mitsubishi)
    else if n == 8 then Some(PowerMeter)
    else if n == 9 then Some(Hurco)
    else if n == 10 then Some(Termodat)
    else if n == 11 then Some(KMSMonitor)
    else if n == 12 then Some(KMSMaster)
    else if n == 13 then Some(Paragraph)
    else None
  }

  /** Ordinals are 0..13 and tell the controller types apart. */
  lemma CNCTypeOrdinals(t: CNCType, u: CNCType)
    ensures t.Ordinal() <= 13
    ensures CNCTypeOf(t.Ordinal()) == Some(t)
    ensures t.Ordinal() == u.Ordinal() ==> t == u
    ensures Paragraph.Ordinal() == 13
  {
  }

  /** Distinct controller types have distinct names, hence distinct service names. */
  lemma CNCTypeNamesDistinct(t: CNCType, u: CNCType)
    ensures t.Name() == u.Name() ==> t == u
    ensures |t.Name()| > 0
  {
  }

  /** Standard machine states. */
  datatype CNCStatus = UNKNOWN | START | STOP | HOLD | OFFLINE | ONLINE
  {
    function Ordinal(): nat
    {
      match this
      case UNKNOWN => 0
      case START => 1
      case STOP => 2
      case HOLD => 3
      case OFFLINE => 4
      case ONLINE => 5
    }
  }

  /** The cast (CNCStatus)n restricted to the declared values. */
  function CNCStatusOf(n: int): (s: Option<CNCStatus>)
    ensures s.Some? <==> 0 <= n <= 5
    ensures s.Some? ==> s.value.Ordinal() == n
  {
    if n == 0 then Some(UNKNOWN)
    else if n == 1 then Some(START)
    else if n == 2 then Some(STOP)
    else if n == 3 then Some(HOLD)
    else if n == 4 then Some(OFFLINE)
    else if n == 5 then Some(ONLINE)
    else None
  }

  lemma CNCStatusOrdinals(s: CNCStatus, u: CNCStatus)
    ensures s.Ordinal() <= 5
    ensures CNCStatusOf(s.Ordinal()) == Some(s)
    ensures s.Ordinal() == u.Ordinal() ==> s == u
  {
  }

  /** Connection settings of one machine. */
  datatype MachineTool = MachineTool(cncType: CNCType, cncHost: string, cncPort: int)

  /** One roster entry: the dictionary key and its value. */
  datatype Entry = Entry(id: int64, tool: MachineTool)

  /** The roster: Dictionary<long, MachineTool> in its enumeration order. */
  type Roster = seq<Entry>

  /** A dictionary holds each key once. */
  ghost predicate IsRoster(r: Roster)
  {
    forall i, j :: 0 <= i < j < |r| ==> r[i].id != r[j].id
  }

  /** What WebApi.GetMachineTools gives back: its bool result and out-dictionary, or an exception thrown by the HTTP client. */
  datatype ApiCall = Answered(ok: bool, tools: Roster) | Threw

  /** The deserialized configuration file (only the fields the poller uses). */
  datatype ConfigFile = ConfigFile(machineTools: Option<Roster>, pollingInterval: int, esbPublish: bool)

  ghost predicate ValidRoster(r: Option<Roster>)
  {
    r.Some? ==> IsRoster(r.value)
  }

  ghost predicate ValidApi(api: ApiCall)
  {
    api.Answered? ==> IsRoster(api.tools)
  }

  /**
   * The roster after the web API override, as the remark on SetMachineTools
   * states it: the API roster wins only on a successful, non-empty answer;
   * otherwise the file's roster stays. A thrown call counts as unsuccessful.
   */
  function RosterAfterApi(fileRoster: Option<Roster>, api: ApiCall): (r: Option<Roster>)
  {
    if api.Answered? && api.ok && |api.tools| > 0 then Some(api.tools) else fileRoster
  }

  /** The override as written: an exception from the HTTP client escapes (Err). */
  function RosterAfterApiAsWritten(fileRoster: Option<Roster>, api: ApiCall): (r: Result<Option<Roster>>)
  {
    match api
    case Threw => Err
    case Answered(ok, tools) => Ok(if ok && |tools| > 0 then Some(tools) else fileRoster)
  }

  /** The override yields a roster from one of its two sources, and keeps rosters well formed. */
  lemma RosterAfterApiSource(fileRoster: Option<Roster>, api: ApiCall)
    requires ValidRoster(fileRoster) && ValidApi(api)
    ensures ValidRoster(RosterAfterApi(fileRoster, api))
    ensures RosterAfterApi(fileRoster, api) != fileRoster ==> api.Answered? && api.ok && RosterAfterApi(fileRoster, api) == Some(api.tools) && |api.tools| > 0
    ensures api.Answered? && !api.ok ==> RosterAfterApi(fileRoster, api) == fileRoster
    ensures api.Answered? && api.tools == [] ==> RosterAfterApi(fileRoster, api) == fileRoster
    ensures api.Answered? && api.ok && |api.tools| > 0 ==> RosterAfterApi(fileRoster, api) == Some(api.tools)
    ensures api.Threw? ==> RosterAfterApi(fileRoster, api) == fileRoster
  {
  }

  /** The written code agrees with the remark whenever the API call returns, and crashes when it throws. */
  lemma ApiExceptionEscapes(fileRoster: Option<Roster>, api: ApiCall)
    ensures api.Answered? ==> RosterAfterApiAsWritten(fileRoster, api) == Ok(RosterAfterApi(fileRoster, api))
    ensures api.Threw? ==> RosterAfterApiAsWritten(fileRoster, api).Err? && RosterAfterApi(fileRoster, api) == fileRoster
  {
  }

  /** The service settings, updated in place by SetMachineTools. */
  class Configuration {
    var machineTools: Option<Roster>
    var pollingInterval: int
    var esbPublish: bool

    ghost predicate Valid()
      reads this
    {
      ValidRoster(machineTools)
    }

    /** JsonConvert.DeserializeObject<Configuration>. */
    constructor (file: ConfigFile)
      requires ValidRoster(file.machineTools)
      ensures Valid()
      ensures machineTools == file.machineTools
      ensures pollingInterval == file.pollingInterval && esbPublish == file.esbPublish
    {
      machineTools := file.machineTools;
      pollingInterval := file.pollingInterval;
      esbPublish := file.esbPublish;
    }
  }

  /** Replaces the roster with the web API's when the call succeeds with a non-empty dictionary. */
  method SetMachineTools(config: Configuration, api: ApiCall)
    requires config.Valid() && ValidApi(api)
    modifies config`machineTools
    ensures config.Valid()
    ensures api.Answered? && api.ok && |api.tools| > 0 ==> config.machineTools == Some(api.tools)
    ensures !(api.Answered? && api.ok && |api.tools| > 0) ==> config.machineTools == old(config.machineTools)
  {
    if api.Answered? && api.ok {
      if |api.tools| > 0 {
        config.machineTools := Some(api.tools);
      }
    }
  }

  /** Reads the configuration file (None: it does not exist) and applies the web API override. */
  method LoadConfig(file: Option<ConfigFile>, api: ApiCall) returns (config: Configuration?)
    requires file.Some? ==> ValidRoster(file.value.machineTools)
    requires ValidApi(api)
    ensures config == null <==> file.None?
    ensures config != null ==> fresh(config) && config.Valid()
    ensures config != null ==> config.pollingInterval == file.value.pollingInterval
    ensures config != null ==> config.esbPublish == file.value.esbPublish
    ensures config != null ==> config.machineTools == RosterAfterApi(file.value.machineTools, api)
  {
    if file.None? {
      return null;
    }
    config := new Configuration(file.value);
    SetMachineTools(config, api);
  }
}
