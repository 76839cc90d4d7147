/** The relay device contract and its two implementations.

    The contract (open, close, set a channel, the open flag, manufacturer and
    product strings) is met by `MockRelayDevice`, the in-memory simulator,
    and by `HIDRelayDevice`, the DCT Tech USB driver. The USB library calls
    of the latter are foreign I/O: each one's outcome is a parameter of the
    method that makes it. */
module Device {
  import opened Wrappers
  import opened Exceptions
  import Format

  // ---------------------------------------------------------------------------
  // HID feature report

  const CommandOn := 0xFF
  const CommandOff := 0xFD
  const ReportLength := 9

  /** The feature report that switches `channel`: report id 0, the command
      byte, the channel, then six zero bytes. */
  function Command(channel: int, on: bool): (r: seq<int>)
    ensures |r| == ReportLength
  {
    [0x00, if on then CommandOn else CommandOff, channel, 0, 0, 0, 0, 0, 0]
  }

  /** What a report asks for, if it is one `Command` can produce. */
  function ParseCommand(report: seq<int>): Option<(int, bool)> {
    if |report| == ReportLength && report[0] == 0x00
       && (report[1] == CommandOn || report[1] == CommandOff)
       && report[3..] == [0, 0, 0, 0, 0, 0]
    then Some((report[2], report[1] == CommandOn))
    else None
  }

  /** A report names its channel and state, and nothing else produces the same report. */
  lemma CommandRoundTrip(channel: int, on: bool, report: seq<int>)
    ensures ParseCommand(Command(channel, on)) == Some((channel, on))
    ensures ParseCommand(report) == Some((channel, on)) ==> report == Command(channel, on)
  {
    if ParseCommand(report) == Some((channel, on)) {
      assert report == report[..3] + report[3..];
    }
  }

  // ---------------------------------------------------------------------------
  // The calls made on a device, in order

  /** One `set_channel` call on a device, and whether it returned normally. */
  datatype Write = Write(channel: int, on: bool, accepted: bool)

  /** The channel map of an in-memory device after replaying the accepted
      writes of `ws` over `m`. */
  function Replay(m: map<int, bool>, ws: seq<Write>): map<int, bool>
    decreases |ws|
  {
    if ws == [] then m
    else
      var w := ws[|ws| - 1];
      var before := Replay(m, ws[..|ws| - 1]);
      if w.accepted then before[w.channel := w.on] else before
  }

  lemma ReplaySnoc(m: map<int, bool>, ws: seq<Write>, w: Write)
    ensures Replay(m, ws + [w]) == if w.accepted then Replay(m, ws)[w.channel := w.on] else Replay(m, ws)
  {
    assert (ws + [w])[..|ws|] == ws;
  }

  /** Replaying two stretches of writes is replaying the first, then the second. */
  lemma {:induction false} ReplayAppend(m: map<int, bool>, a: seq<Write>, b: seq<Write>)
    ensures Replay(m, a + b) == Replay(Replay(m, a), b)
    decreases |b|
  {
    if b == [] {
      assert a + b == a;
    } else {
      var c, w := b[..|b| - 1], b[|b| - 1];
      assert a + b == (a + c) + [w];
      assert b == c + [w];
      ReplaySnoc(m, a + c, w);
      ReplaySnoc(Replay(m, a), c, w);
      ReplayAppend(m, a, c);
    }
  }

  /** The state the last accepted write to `channel` in `ws` asked for, if any. */
  function LastAccepted(ws: seq<Write>, channel: int): Option<bool>
    decreases |ws|
  {
    if ws == [] then None
    else if ws[|ws| - 1].accepted && ws[|ws| - 1].channel == channel then Some(ws[|ws| - 1].on)
    else LastAccepted(ws[..|ws| - 1], channel)
  }

  /** On an in-memory device the last accepted write to a channel wins; a
      channel no accepted write touched keeps its entry. */
  lemma {:induction false} ReplayLastWriteWins(m: map<int, bool>, ws: seq<Write>, channel: int)
    ensures LastAccepted(ws, channel).Some? ==>
      channel in Replay(m, ws) && Replay(m, ws)[channel] == LastAccepted(ws, channel).value
    ensures LastAccepted(ws, channel).None? ==>
      (channel in Replay(m, ws) <==> channel in m)
      && (channel in m ==> Replay(m, ws)[channel] == m[channel])
    decreases |ws|
  {
    if ws != [] {
      ReplayLastWriteWins(m, ws[..|ws| - 1], channel);
    }
  }

  // ---------------------------------------------------------------------------
  // In-memory device

  /** The channel map a freshly opened in-memory device holds: 1..n, all off. */
  function InitialStates(n: int): (m: map<int, bool>)
    ensures forall ch :: ch in m <==> 1 <= ch <= n
    ensures forall ch :: ch in m ==> !m[ch]
  {
    map ch | ch in ChannelNumbers(n) :: false
  }

  /** The channel numbers 1..n. */
  function ChannelNumbers(n: int): (s: set<int>)
    ensures forall ch :: ch in s <==> 1 <= ch <= n
    decreases n
  {
    if n < 1 then {} else ChannelNumbers(n - 1) + {n}
  }

  /** A fault oracle: `faults(i, channel, on)` is the message of the error
      that call number `i` (counting every earlier `set_channel`) raises
      when it switches `channel` to `on`, or None if that call goes through. */
  type Oracle = (nat, int, bool) -> Option<string>

  const NotOpenMessage := "Mock device is not open"

  /** Whether an in-memory device with fault oracle `faults` and open flag
      `isOpen` raises on call number `i`, switching `channel` to `on`. */
  predicate Refused(faults: Oracle, isOpen: bool, i: nat, channel: int, on: bool) {
    faults(i, channel, on).Some? || !isOpen
  }

  /** The error such a call raises: the injected fault is checked first. */
  function RefusalError(faults: Oracle, i: nat, channel: int, on: bool): RelayError {
    match faults(i, channel, on)
    case Some(message) => DeviceConnection(message)
    case None => DeviceConnection(NotOpenMessage)
  }

  /** The in-memory simulator. `faults` stands for the test doubles that
      raise on chosen calls; the plain simulator has none. */
  class MockRelayDevice {
    const channels: int
    const faults: Oracle
    var isOpen: bool
    var states: map<int, bool>
    var writes: seq<Write>

    /** A closed simulator without faults. */
    constructor (channels: int)
      ensures this.channels == channels && !isOpen && states == map[] && writes == []
      ensures forall i: nat, ch, on :: faults(i, ch, on) == None
    {
      this.channels := channels;
      faults := (i: nat, ch: int, on: bool) => None;
      isOpen := false;
      states := map[];
      writes := [];
    }

    /** A closed simulator that raises on every call for `failOnChannel`,
        like the failing test double of the service tests. */
    constructor Failing(channels: int, failOnChannel: int)
      ensures this.channels == channels && !isOpen && states == map[] && writes == []
      ensures forall i: nat, ch, on :: faults(i, ch, on).Some? <==> ch == failOnChannel
      ensures forall i: nat, on ::
        faults(i, failOnChannel, on) == Some("Simulated failure on channel " + Format.IntToString(failOnChannel))
    {
      this.channels := channels;
      faults := (i: nat, ch: int, on: bool) =>
        if ch == failOnChannel then Some("Simulated failure on channel " + Format.IntToString(ch)) else None;
      isOpen := false;
      states := map[];
      writes := [];
    }

    /** A closed simulator with an arbitrary fault oracle. */
    constructor WithFaults(channels: int, oracle: Oracle)
      ensures this.channels == channels && faults == oracle
      ensures !isOpen && states == map[] && writes == []
    {
      this.channels := channels;
      faults := oracle;
      isOpen := false;
      states := map[];
      writes := [];
    }

    method Open()
      modifies this
      ensures isOpen && states == InitialStates(channels) && writes == old(writes)
    {
      isOpen := true;
      states := InitialStates(channels);
    }

    method Close()
      modifies this
      ensures !isOpen && states == map[] && writes == old(writes)
    {
      isOpen := false;
      states := map[];
    }

    /** Records `on` for `channel` unless the call raises; every call is logged. */
    method SetChannel(channel: int, on: bool) returns (r: Outcome<RelayError>)
      modifies this
      ensures isOpen == old(isOpen)
      ensures writes == old(writes) + [Write(channel, on, r.Pass?)]
      ensures r.Pass? <==> !Refused(faults, isOpen, |old(writes)|, channel, on)
      ensures r.Fail? ==> r.error == RefusalError(faults, |old(writes)|, channel, on) && states == old(states)
      ensures r.Pass? ==> states == old(states)[channel := on]
    {
      var fault := faults(|writes|, channel, on);
      if fault.Some? {
        r := Fail(DeviceConnection(fault.value));
      } else if !isOpen {
        r := Fail(DeviceConnection(NotOpenMessage));
      } else {
        states := states[channel := on];
        r := Pass;
      }
      writes := writes + [Write(channel, on, r.Pass?)];
    }

    function Manufacturer(): string
      reads this
    {
      if isOpen then "MockManufacturer" else "Unknown"
    }

    function Product(): string
      reads this
    {
      if isOpen then "MockRelay" else "Unknown"
    }
  }

  /** An open simulator identifies itself as MockManufacturer / MockRelay, a
      closed one as Unknown / Unknown. */
  lemma MockStrings(d: MockRelayDevice)
    ensures d.isOpen ==> d.Manufacturer() == "MockManufacturer" && d.Product() == "MockRelay"
    ensures !d.isOpen ==> d.Manufacturer() == "Unknown" && d.Product() == "Unknown"
  {
  }

  // ---------------------------------------------------------------------------
  // DCT Tech HID device

  /** The USB driver. `hasHandle` stands for the library handle being present. */
  class HIDRelayDevice {
    const vendorId: int
    const productId: int
    var isOpen: bool
    var hasHandle: bool

    constructor (vendorId: int, productId: int)
      ensures this.vendorId == vendorId && this.productId == productId
      ensures !isOpen && !hasHandle
    {
      this.vendorId := vendorId;
      this.productId := productId;
      isOpen := false;
      hasHandle := false;
    }

    /** Every open driver holds a library handle. */
    predicate Consistent()
      reads this
    {
      isOpen ==> hasHandle
    }

    /** `open` as written. `hidOpens` is whether the library manages to open
        the USB device; `stringsRead` is whether the manufacturer and product
        strings logged after the flag is set are read without an I/O error.
        When that read fails, the handle is dropped but the flag stays set. */
    method Open(hidOpens: bool, stringsRead: bool) returns (r: Outcome<RelayError>)
      modifies this
      ensures old(isOpen) ==> r == Pass && isOpen && hasHandle == old(hasHandle)
      ensures !old(isOpen) && hidOpens && stringsRead ==> r == Pass && isOpen && hasHandle
      ensures !old(isOpen) && !hidOpens ==>
        r == Fail(DeviceNotFound(vendorId, productId)) && !isOpen && !hasHandle
      ensures !old(isOpen) && hidOpens && !stringsRead ==>
        r == Fail(DeviceNotFound(vendorId, productId)) && isOpen && !hasHandle
    {
      if isOpen {
        return Pass;
      }
      hasHandle := true;
      if hidOpens {
        isOpen := true;
      }
      if hidOpens && stringsRead {
        r := Pass;
      } else {
        hasHandle := false;
        r := Fail(DeviceNotFound(vendorId, productId));
      }
    }

    /** `open` with the flag cleared along with the handle when it fails, so
        that a failed open leaves the driver closed and can be retried. */
    method OpenReleasing(hidOpens: bool, stringsRead: bool) returns (r: Outcome<RelayError>)
      modifies this
      ensures old(isOpen) ==> r == Pass && isOpen && hasHandle == old(hasHandle)
      ensures !old(isOpen) ==> (r == Pass <==> hidOpens && stringsRead)
      ensures !old(isOpen) && r == Pass ==> isOpen && hasHandle
      ensures !old(isOpen) && r != Pass ==>
        r == Fail(DeviceNotFound(vendorId, productId)) && !isOpen && !hasHandle
      ensures old(Consistent()) ==> Consistent()
    {
      if isOpen {
        return Pass;
      }
      hasHandle := true;
      if hidOpens {
        isOpen := true;
      }
      if hidOpens && stringsRead {
        r := Pass;
      } else {
        isOpen := false;
        hasHandle := false;
        r := Fail(DeviceNotFound(vendorId, productId));
      }
    }

    /** Releases the handle of an open device; otherwise does nothing. */
    method Close()
      modifies this
      ensures old(hasHandle && isOpen) ==> !isOpen && !hasHandle
      ensures !old(hasHandle && isOpen) ==> isOpen == old(isOpen) && hasHandle == old(hasHandle)
    {
      if hasHandle && isOpen {
        isOpen := false;
        hasHandle := false;
      }
    }

    /** Sends the switching report unless the device is not open. `sendError`
        is the library's I/O error message if sending the report fails; `sent`
        is the report handed to the library, if any. */
    method SetChannel(channel: int, on: bool, sendError: Option<string>)
      returns (r: Outcome<RelayError>, sent: Option<seq<int>>)
      ensures !(isOpen && hasHandle) ==>
        r == Fail(DeviceConnection("Device is not open")) && sent == None
      ensures isOpen && hasHandle ==> sent.Some? && ParseCommand(sent.value) == Some((channel, on))
      ensures isOpen && hasHandle ==> (r == Pass <==> sendError.None?)
      ensures isOpen && hasHandle && sendError.Some? ==>
        r == Fail(DeviceConnection("Failed to set channel " + Format.IntToString(channel)
                                   + ": " + sendError.value))
    {
      if !isOpen || !hasHandle {
        return Fail(DeviceConnection("Device is not open")), None;
      }
      var cmd := Command(channel, on);
      CommandRoundTrip(channel, on, cmd);
      sent := Some(cmd);
      if sendError.Some? {
        r := Fail(DeviceConnection("Failed to set channel " + Format.IntToString(channel)
                                   + ": " + sendError.value));
      } else {
        r := Pass;
      }
    }

    /** The manufacturer string; `reported` is what the library returns for it. */
    function Manufacturer(reported: Option<string>): (s: string)
      reads this
      ensures !(isOpen && hasHandle) ==> s == "Unknown"
      ensures s != ""
      ensures isOpen && hasHandle && reported.Some? && reported.value != "" ==> s == reported.value
      ensures isOpen && hasHandle && (reported.None? || reported.value == "") ==> s == "Unknown"
    {
      if hasHandle && isOpen then NonEmptyOr(reported) else "Unknown"
    }

    /** The product string; `reported` is what the library returns for it. */
    function Product(reported: Option<string>): (s: string)
      reads this
      ensures !(isOpen && hasHandle) ==> s == "Unknown"
      ensures s != ""
      ensures isOpen && hasHandle && reported.Some? && reported.value != "" ==> s == reported.value
      ensures isOpen && hasHandle && (reported.None? || reported.value == "") ==> s == "Unknown"
    {
      if hasHandle && isOpen then NonEmptyOr(reported) else "Unknown"
    }
  }

  /** With `open` as written, a string read that fails after the library has
      opened the device leaves a driver that reports itself open but cannot
      switch a channel, that `close` does not reset and that a second `open`
      does not repair. */
  method FailedStringReadLeavesDriverStuck() returns (d: HIDRelayDevice)
    ensures d.isOpen && !d.hasHandle && !d.Consistent()
  {
    d := new HIDRelayDevice(0x16c0, 0x05df);
    var r := d.Open(true, false);
    assert r == Fail(DeviceNotFound(0x16c0, 0x05df));
    var s, sent := d.SetChannel(1, true, None);
    assert s == Fail(DeviceConnection("Device is not open")) && sent == None;
    d.Close();
    r := d.Open(true, true);
    assert r == Pass;
  }

  /** With the corrected `open`, the same failure leaves the driver closed,
      and a second attempt opens it with a handle. */
  method FailedStringReadAllowsRetry() returns (d: HIDRelayDevice)
    ensures d.isOpen && d.hasHandle && d.Consistent()
  {
    d := new HIDRelayDevice(0x16c0, 0x05df);
    var r := d.OpenReleasing(true, false);
    assert r == Fail(DeviceNotFound(0x16c0, 0x05df)) && !d.isOpen;
    r := d.OpenReleasing(true, true);
    assert r == Pass;
  }

  /** Python's `reported or "Unknown"` for an optional string. */
  function NonEmptyOr(reported: Option<string>): string {
    if reported.Some? && reported.value != "" then reported.value else "Unknown"
  }
}
