/** The request and response records of the relay API and the validation
    their field declarations imply. Building a record either yields the
    record or the names of the fields that break a declared bound, in
    declaration order, as the validation layer reports them. */
module Schemas {
  import opened Wrappers

  datatype RelayState = On | Off {
    /** The wire value of the enum member. */
    function Value(): string {
      match this
      case On => "on"
      case Off => "off"
    }
  }

  /** Reading a wire value into a RelayState: exactly "on" and "off" are accepted. */
  function ParseRelayState(s: string): (r: Option<RelayState>)
    ensures r.Some? <==> s == "on" || s == "off"
    ensures r.Some? ==> r.value.Value() == s
  {
    if s == "on" then Some(On) else if s == "off" then Some(Off) else None
  }

  lemma RelayStateRoundTrip(x: RelayState)
    ensures ParseRelayState(x.Value()) == Some(x)
  {
  }

  datatype BurnTestMode = All | Alternate {
    function Value(): string {
      match this
      case All => "all"
      case Alternate => "alternate"
    }
  }

  /** Reading a wire value into a BurnTestMode: exactly "all" and "alternate". */
  function ParseBurnTestMode(s: string): (r: Option<BurnTestMode>)
    ensures r.Some? <==> s == "all" || s == "alternate"
    ensures r.Some? ==> r.value.Value() == s
  {
    if s == "all" then Some(All) else if s == "alternate" then Some(Alternate) else None
  }

  lemma BurnTestModeRoundTrip(x: BurnTestMode)
    ensures ParseBurnTestMode(x.Value()) == Some(x)
  {
  }

  /** Either the built record or the names of the fields that failed. */
  type Validated<T> = Result<T, seq<string>>

  datatype RelayStatus = RelayStatus(channel: int, state: RelayState)

  /** `RelayStatus(channel=..., state=...)`: the channel must be at least 1. */
  function NewRelayStatus(channel: int, state: RelayState): (r: Validated<RelayStatus>)
    ensures r.Success? <==> channel >= 1
    ensures r.Success? ==> r.value.channel == channel && r.value.state == state
    ensures r.Failure? ==> r.error == ["channel"]
  {
    if channel >= 1 then Success(RelayStatus(channel, state)) else Failure(["channel"])
  }

  datatype DeviceInfo = DeviceInfo(manufacturer: string, product: string, channels: int, connected: bool)

  /** `DeviceInfo(...)`: the channel count must be at least 1. */
  function NewDeviceInfo(manufacturer: string, product: string, channels: int, connected: bool)
    : (r: Validated<DeviceInfo>)
    ensures r.Success? <==> channels >= 1
    ensures r.Success? ==> r.value == DeviceInfo(manufacturer, product, channels, connected)
    ensures r.Failure? ==> r.error == ["channels"]
  {
    if channels >= 1 then Success(DeviceInfo(manufacturer, product, channels, connected))
    else Failure(["channels"])
  }

  const DefaultCycles := 0
  const DefaultDelayMs := 500
  const MinDelayMs := 100
  const MaxDelayMs := 60000

  datatype BurnTestRequest = BurnTestRequest(cycles: int, delayMs: int, mode: BurnTestMode)

  predicate ValidBurnTestRequest(q: BurnTestRequest) {
    q.cycles >= 0 && MinDelayMs <= q.delayMs <= MaxDelayMs
  }

  /** The errors of a burn-test request body: an absent field takes its
      default, a present one must meet its bound (mode must be a wire value). */
  function BurnTestRequestErrors(cycles: Option<int>, delayMs: Option<int>, mode: Option<string>)
    : seq<string>
  {
    (if cycles.Some? && cycles.value < 0 then ["cycles"] else [])
    + (if delayMs.Some? && !(MinDelayMs <= delayMs.value <= MaxDelayMs) then ["delay_ms"] else [])
    + (if mode.Some? && ParseBurnTestMode(mode.value).None? then ["mode"] else [])
  }

  /** `BurnTestRequest(**body)`: defaults are 0 cycles (run until stopped),
      500 ms and mode ALL; cycles >= 0, 100 <= delay_ms <= 60000. */
  function NewBurnTestRequest(cycles: Option<int>, delayMs: Option<int>, mode: Option<string>)
    : (r: Validated<BurnTestRequest>)
    ensures r.Success? <==>
      && (cycles.None? || cycles.value >= 0)
      && (delayMs.None? || MinDelayMs <= delayMs.value <= MaxDelayMs)
      && (mode.None? || mode.value == "all" || mode.value == "alternate")
    ensures r.Success? ==> ValidBurnTestRequest(r.value)
    ensures r.Success? ==>
      && r.value.cycles == cycles.GetOr(DefaultCycles)
      && r.value.delayMs == delayMs.GetOr(DefaultDelayMs)
      && r.value.mode.Value() == mode.GetOr("all")
    ensures r.Failure? ==>
      && r.error != []
      && ("cycles" in r.error <==> cycles.Some? && cycles.value < 0)
      && ("delay_ms" in r.error <==> delayMs.Some? && !(MinDelayMs <= delayMs.value <= MaxDelayMs))
  {
    var errors := BurnTestRequestErrors(cycles, delayMs, mode);
    if errors != [] then Failure(errors)
    else
      var m := if mode.Some? then ParseBurnTestMode(mode.value).value else All;
      Success(BurnTestRequest(cycles.GetOr(DefaultCycles), delayMs.GetOr(DefaultDelayMs), m))
  }

  /** An empty body is a valid request: run indefinitely, 500 ms apart, all channels. */
  lemma DefaultBurnTestRequest()
    ensures NewBurnTestRequest(None, None, None) == Success(BurnTestRequest(0, 500, All))
  {
  }

  datatype BurnTestStatus = BurnTestStatus(
    running: bool, cyclesCompleted: int, cyclesTarget: int, errors: int, mode: BurnTestMode)

  /** `BurnTestStatus(...)`: no bounds; an omitted mode is ALL. */
  function NewBurnTestStatus(running: bool, cyclesCompleted: int, cyclesTarget: int, errors: int,
                             mode: Option<BurnTestMode>): (r: BurnTestStatus)
    ensures mode.None? ==> r.mode == All
    ensures mode.Some? ==> r.mode == mode.value
    ensures r.running == running && r.cyclesCompleted == cyclesCompleted
    ensures r.cyclesTarget == cyclesTarget && r.errors == errors
  {
    BurnTestStatus(running, cyclesCompleted, cyclesTarget, errors, mode.GetOr(All))
  }
}
