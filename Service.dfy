/** The relay service: the layer between the HTTP routes and the device. It
    validates channel numbers, keeps a mirror of the state it last set on
    every channel, and serialises device access (here every method is one
    atomic step, see README). The device is the in-memory simulator; its
    fault oracle lets a device raise on any chosen call. */
module Service {
  import opened Wrappers
  import opened Exceptions
  import opened Schemas
  import opened Device

  // ---------------------------------------------------------------------------
  // The mirror as a value

  /** The mirror after `channel` is set to `state`; a channel outside 1..|m|
      leaves it as it is. */
  function SetMirror(m: seq<RelayState>, channel: int, state: RelayState): (r: seq<RelayState>)
    ensures |r| == |m|
    ensures forall i :: 0 <= i < |m| ==> r[i] == if i + 1 == channel then state else m[i]
  {
    if 1 <= channel <= |m| then m[channel - 1 := state] else m
  }

  /** The mirror after a sequence of single-channel sets, applied in order. */
  function ApplySets(m: seq<RelayState>, ops: seq<(int, RelayState)>): (r: seq<RelayState>)
    ensures |r| == |m|
    decreases |ops|
  {
    if ops == [] then m
    else SetMirror(ApplySets(m, ops[..|ops| - 1]), ops[|ops| - 1].0, ops[|ops| - 1].1)
  }

  /** The state the last set of `channel` in `ops` asked for, if any. */
  function LastSet(ops: seq<(int, RelayState)>, channel: int): Option<RelayState>
    decreases |ops|
  {
    if ops == [] then None
    else if ops[|ops| - 1].0 == channel then Some(ops[|ops| - 1].1)
    else LastSet(ops[..|ops| - 1], channel)
  }

  /** However concurrent callers' sets are serialised, each channel ends in the
      state of the last set made to it, and a channel nobody set keeps its state. */
  lemma {:induction false} LastSetWins(m: seq<RelayState>, ops: seq<(int, RelayState)>, channel: int)
    requires 1 <= channel <= |m|
    ensures LastSet(ops, channel).Some? ==> ApplySets(m, ops)[channel - 1] == LastSet(ops, channel).value
    ensures LastSet(ops, channel).None? ==> ApplySets(m, ops)[channel - 1] == m[channel - 1]
    decreases |ops|
  {
    if ops != [] {
      LastSetWins(m, ops[..|ops| - 1], channel);
    }
  }

  // ---------------------------------------------------------------------------
  // Where a bulk set stops

  /** Whether the forward write to channel `ch` of a bulk set whose first write
      is device call number `base` raises: that write is call `base + ch - 1`. */
  predicate ForwardRefused(faults: Oracle, isOpen: bool, base: nat, ch: int, on: bool)
    requires ch >= 1
  {
    Refused(faults, isOpen, base + ch - 1, ch, on)
  }

  /** The first channel from `from` on whose forward write raises, or `n + 1`
      if none of `from..n` does. */
  function FirstRefused(faults: Oracle, isOpen: bool, base: nat, from: int, n: int, on: bool)
    : (k: int)
    requires 1 <= from <= n + 1
    ensures from <= k <= n + 1
    ensures forall ch :: from <= ch < k ==> !ForwardRefused(faults, isOpen, base, ch, on)
    ensures k <= n ==> ForwardRefused(faults, isOpen, base, k, on)
    decreases n + 1 - from
  {
    if from == n + 1 then n + 1
    else if ForwardRefused(faults, isOpen, base, from, on) then from
    else FirstRefused(faults, isOpen, base, from + 1, n, on)
  }

  /** The stopping point is determined by where the first refusal is. */
  lemma FirstRefusedUnique(faults: Oracle, isOpen: bool, base: nat, n: int, on: bool, k: int)
    requires 1 <= k <= n + 1
    requires forall ch :: 1 <= ch < k ==> !ForwardRefused(faults, isOpen, base, ch, on)
    requires k <= n ==> ForwardRefused(faults, isOpen, base, k, on)
    ensures FirstRefused(faults, isOpen, base, 1, n, on) == k
  {
  }

  /** The forward writes at the head of a bulk set's log: channels 1..count,
      each to `on`, each accepted. */
  ghost predicate ForwardWrites(log: seq<Write>, count: nat, on: bool)
    requires count <= |log|
  {
    forall j :: 0 <= j < count ==> log[j] == Write(j + 1, on, true)
  }

  /** An accepted write to the next channel extends the forward writes by one. */
  lemma ForwardWritesSnoc(log: seq<Write>, count: nat, on: bool)
    requires count == |log| && ForwardWrites(log, count, on)
    ensures ForwardWrites(log + [Write(count + 1, on, true)], count + 1, on)
  {
  }

  /** The rollback writes of a failed bulk set, the first being device call
      number `base`: channels 1, 2, ... in order, each switched back to its
      state in `previous`, each accepted unless the device refuses that call. */
  ghost predicate RestoreWrites(log: seq<Write>, previous: seq<RelayState>, base: nat, faults: Oracle, isOpen: bool)
    requires |log| <= |previous|
  {
    forall j {:trigger log[j]} :: 0 <= j < |log| ==>
      log[j] == Write(j + 1, previous[j] == On, !Refused(faults, isOpen, base + j, j + 1, previous[j] == On))
  }

  /** Writing the next channel back to its previous state extends the rollback writes. */
  lemma RestoreWritesSnoc(log: seq<Write>, previous: seq<RelayState>, base: nat, faults: Oracle, isOpen: bool)
    requires |log| < |previous| && RestoreWrites(log, previous, base, faults, isOpen)
    ensures var on := previous[|log|] == On;
      RestoreWrites(log + [Write(|log| + 1, on, !Refused(faults, isOpen, base + |log|, |log| + 1, on))],
                    previous, base, faults, isOpen)
  {
  }

  /** The log of a failed bulk set whose first write is device call number
      `base` and whose forward pass stopped at channel `k`: channels 1..k-1
      written to `on` and accepted, channel k refused, then channels 1..k-1
      written back to their states in `previous`, each accepted unless the
      device refuses that call. */
  ghost predicate FailedBulkWrites(log: seq<Write>, k: int, on: bool, previous: seq<RelayState>,
                                   base: nat, faults: Oracle, isOpen: bool)
    requires 1 <= k && |log| == 2 * k - 1 && k - 1 <= |previous|
  {
    forall j :: 0 <= j < |log| ==>
      log[j] == (if j < k - 1 then Write(j + 1, on, true)
                 else if j == k - 1 then Write(k, on, false)
                 else Write(j - k + 1, previous[j - k] == On,
                            !Refused(faults, isOpen, base + j, j - k + 1, previous[j - k] == On)))
  }

  /** The forward writes followed by the rollback writes make such a log. */
  lemma FailedBulkLog(forward: seq<Write>, back: seq<Write>, previous: seq<RelayState>, k: nat, on: bool,
                      base: nat, faults: Oracle, isOpen: bool)
    requires 1 <= k && |forward| == k && |back| == k - 1 && k - 1 <= |previous|
    requires ForwardWrites(forward, k - 1, on) && forward[k - 1] == Write(k, on, false)
    requires RestoreWrites(back, previous, base + k, faults, isOpen)
    ensures |forward + back| == 2 * k - 1
    ensures FailedBulkWrites(forward + back, k, on, previous, base, faults, isOpen)
  {
    var log := forward + back;
    forall j | k <= j < |log|
      ensures log[j] == Write(j - k + 1, previous[j - k] == On,
                              !Refused(faults, isOpen, base + j, j - k + 1, previous[j - k] == On))
    {
      assert log[j] == back[j - k];
    }
  }

  lemma AppendAssoc(a: seq<Write>, b: seq<Write>, c: seq<Write>)
    ensures a + b + c == a + (b + c)
  {
  }

  /** The writes of the fail-safe, the first being device call number `base`:
      channels 1, 2, ..., each to OFF, each accepted unless the device
      refuses that call. */
  ghost predicate OffWrites(log: seq<Write>, base: nat, faults: Oracle, isOpen: bool) {
    forall j :: 0 <= j < |log| ==>
      log[j] == Write(j + 1, false, !Refused(faults, isOpen, base + j, j + 1, false))
  }

  lemma OffWritesSnoc(log: seq<Write>, base: nat, faults: Oracle, isOpen: bool)
    requires OffWrites(log, base, faults, isOpen)
    ensures OffWrites(log + [Write(|log| + 1, false, !Refused(faults, isOpen, base + |log|, |log| + 1, false))],
                      base, faults, isOpen)
  {
  }

  // ---------------------------------------------------------------------------
  // The service

  class RelayService {
    const device: MockRelayDevice
    const channels: nat
    /** The mirror: `states[ch - 1]` is what the service last set channel `ch` to. */
    var states: seq<RelayState>

    ghost predicate Valid()
      reads this
    {
      |states| == channels
    }

    /** Every channel starts OFF in the mirror; the device is not touched. */
    constructor (device: MockRelayDevice, channels: nat)
      ensures this.device == device && this.channels == channels && Valid()
      ensures forall i :: 0 <= i < channels ==> states[i] == Off
    {
      this.device := device;
      this.channels := channels;
      states := seq(channels, _ => Off);
    }

    /** Channel numbers run from 1 to the configured count. */
    function ValidateChannel(channel: int): (r: Outcome<RelayError>)
      ensures r.Pass? <==> 1 <= channel <= channels
      ensures r.Fail? ==> r.error == InvalidChannel(channel, channels)
    {
      if channel < 1 || channel > channels then Fail(InvalidChannel(channel, channels)) else Pass
    }

    /** The mirrored state of one channel. */
    function GetChannel(channel: int): (r: Result<RelayStatus, RelayError>)
      reads this
      requires Valid()
      ensures r.Success? <==> 1 <= channel <= channels
      ensures r.Success? ==> NewRelayStatus(channel, states[channel - 1]) == Success(r.value)
      ensures r.Failure? ==> r.error == InvalidChannel(channel, channels)
    {
      var v := ValidateChannel(channel);
      if v.Fail? then Failure(v.error) else Success(RelayStatus(channel, states[channel - 1]))
    }

    /** The mirrored state of every channel, ascending by channel number. */
    function GetAllChannels(): (r: seq<RelayStatus>)
      reads this
      requires Valid()
      ensures |r| == channels
      ensures forall i :: 0 <= i < |r| ==> NewRelayStatus(i + 1, states[i]) == Success(r[i])
    {
      var s := states;
      seq(channels, i requires 0 <= i < |s| => RelayStatus(i + 1, s[i]))
    }

    /** The list agrees with the single-channel query and is strictly ascending. */
    lemma AllChannelsAgree()
      requires Valid()
      ensures forall c :: 1 <= c <= channels ==> GetChannel(c) == Success(GetAllChannels()[c - 1])
      ensures forall i, j :: 0 <= i < j < channels ==>
        GetAllChannels()[i].channel < GetAllChannels()[j].channel
    {
    }

    function ChannelCount(): (n: nat)
      reads this
      requires Valid()
      ensures n == |states| == |GetAllChannels()|
    {
      channels
    }

    /** Whether the device is open, which is exactly when it identifies itself. */
    function IsDeviceConnected(): (b: bool)
      reads device
      ensures b <==> device.Manufacturer() != "Unknown"
      ensures b <==> device.Product() != "Unknown"
    {
      device.isOpen
    }

    /** The device's identity and the channel count, as a DeviceInfo record;
        a zero channel count faults its validation. */
    function GetDeviceInfo(): (r: Validated<DeviceInfo>)
      reads this, device
      ensures r.Success? <==> channels >= 1
      ensures r.Failure? ==> r.error == ["channels"]
      ensures r.Success? ==> r.value.channels == channels && r.value.connected == IsDeviceConnected()
      ensures r.Success? && r.value.connected ==>
        r.value.manufacturer == "MockManufacturer" && r.value.product == "MockRelay"
      ensures r.Success? && !r.value.connected ==>
        r.value.manufacturer == "Unknown" && r.value.product == "Unknown"
    {
      NewDeviceInfo(device.Manufacturer(), device.Product(), channels, device.isOpen)
    }

    /** Sets one channel. An invalid channel is refused before the device is
        called; a device error leaves the mirror as it was. */
    method SetChannel(channel: int, state: RelayState) returns (r: Result<RelayStatus, RelayError>)
      requires Valid()
      modifies this, device
      ensures Valid() && device.isOpen == old(device.isOpen)
      ensures !(1 <= channel <= channels) ==>
        && r == Failure(InvalidChannel(channel, channels))
        && states == old(states) && device.writes == old(device.writes)
        && device.states == old(device.states)
      ensures 1 <= channel <= channels ==>
        && device.writes == old(device.writes) + [Write(channel, state == On, r.Success?)]
        && (r.Success? <==> !Refused(device.faults, device.isOpen, |old(device.writes)|, channel, state == On))
      ensures r.Success? ==>
        r == Success(RelayStatus(channel, state)) && states == SetMirror(old(states), channel, state)
      ensures r.Failure? ==> states == old(states)
      ensures r.Failure? && 1 <= channel <= channels ==>
        r.error == RefusalError(device.faults, |old(device.writes)|, channel, state == On)
      ensures device.states == Replay(old(device.states), device.writes[|old(device.writes)|..])
    {
      ghost var base := |device.writes|;
      var v := ValidateChannel(channel);
      if v.Fail? {
        assert device.writes[base..] == [];
        return Failure(v.error);
      }
      var on := state == On;
      var w := device.SetChannel(channel, on);
      assert device.writes[base..] == [Write(channel, on, w.Pass?)];
      assert [Write(channel, on, w.Pass?)] == [] + [Write(channel, on, w.Pass?)];
      ReplaySnoc(old(device.states), [], Write(channel, on, w.Pass?));
      if w.Fail? {
        return Failure(w.error);
      }
      states := states[channel - 1 := state];
      r := Success(RelayStatus(channel, state));
    }

    /** Sets every channel, 1 to N, to `state`. If a device write raises, the
        channels already set are written back to their previous states, in
        ascending order and ignoring errors, the mirror is restored, and the
        original error is returned. `log` is the writes the device saw. With
        `k` the first channel whose forward write raises (N + 1 if none):
        success iff k = N + 1; on success the mirror is all `state` and the
        result is the full list; on failure the device saw k forward writes,
        the last refused, and then k - 1 rollback writes. */
    method SetAllChannels(state: RelayState) returns (r: Result<seq<RelayStatus>, RelayError>, ghost log: seq<Write>)
      requires Valid()
      modifies this, device
      ensures Valid() && device.isOpen == old(device.isOpen)
      ensures device.writes == old(device.writes) + log
      ensures device.states == Replay(old(device.states), log)
      ensures var k := FirstRefused(device.faults, old(device.isOpen), |old(device.writes)|, 1, channels, state == On);
        r.Success? <==> k == channels + 1
      ensures r.Success? ==>
        && (forall i :: 0 <= i < channels ==> states[i] == state)
        && r.value == GetAllChannels()
        && |log| == channels && ForwardWrites(log, channels, state == On)
      ensures r.Failure? ==> states == old(states)
      ensures r.Failure? ==>
        var base, on := |old(device.writes)|, state == On;
        var k := FirstRefused(device.faults, old(device.isOpen), base, 1, channels, on);
        && k <= channels
        && |log| == 2 * k - 1
        && FailedBulkWrites(log, k, on, old(states), base, device.faults, old(device.isOpen))
        && r.error == RefusalError(device.faults, base + k - 1, k, on)
    {
      ghost var deviceBefore := device.states;
      ghost var writesBefore := device.writes;
      ghost var base, open := |device.writes|, device.isOpen;
      var previous := states;
      var failure, completed;
      ghost var forward;
      failure, completed, forward := WriteForward(state);
      ghost var k := FirstRefused(device.faults, open, base, 1, channels, state == On);
      assert |completed| + 1 == k;
      if failure.Some? {
        ghost var midStates := device.states;
        assert |device.writes| == base + |forward| && device.isOpen == open;
        ghost var back := RollBack(previous, completed);
        FailedBulkLog(forward, back, previous, k, state == On, base, device.faults, open);
        assert device.states == Replay(midStates, back);
        ReplayAppend(deviceBefore, forward, back);
        AppendAssoc(writesBefore, forward, back);
        log := forward + back;
        assert states == previous;
        r := Failure(failure.value);
      } else {
        log := forward;
        r := Success(GetAllChannels());
      }
    }

    /** The forward pass of a bulk set: channels 1..N in order, each to
        `state`, stopping at the first write that raises. `completed` lists
        the channels set, which are those below the first refused one. */
    method WriteForward(state: RelayState)
      returns (failure: Option<RelayError>, completed: seq<int>, ghost log: seq<Write>)
      requires Valid()
      modifies this, device
      ensures Valid() && device.isOpen == old(device.isOpen)
      ensures device.writes == old(device.writes) + log
      ensures device.states == Replay(old(device.states), log)
      ensures |completed| + 1 == FirstRefused(device.faults, old(device.isOpen), |old(device.writes)|, 1, channels, state == On)
      ensures forall i :: 0 <= i < |completed| ==> completed[i] == i + 1
      ensures failure.None? <==> |completed| == channels
      ensures |log| == |completed| + (if failure.None? then 0 else 1)
      ensures ForwardWrites(log, |completed|, state == On)
      ensures failure.Some? ==> log[|completed|] == Write(|completed| + 1, state == On, false)
      ensures failure.Some? ==>
        var k := FirstRefused(device.faults, old(device.isOpen), |old(device.writes)|, 1, channels, state == On);
        failure.value == RefusalError(device.faults, |old(device.writes)| + k - 1, k, state == On)
      ensures forall i :: 0 <= i < channels ==> states[i] == if i < |completed| then state else old(states)[i]
    {
      var on := state == On;
      ghost var base := |device.writes|;
      ghost var open := device.isOpen;
      ghost var deviceBefore := device.states;
      var previous := states;
      log := [];
      completed := [];
      failure := None;
      for ch := 1 to channels + 1
        invariant Valid() && device.isOpen == open
        invariant |completed| == ch - 1 && forall i :: 0 <= i < |completed| ==> completed[i] == i + 1
        invariant forall i :: 0 <= i < channels ==> states[i] == if i < ch - 1 then state else previous[i]
        invariant forall c :: 1 <= c < ch ==> !ForwardRefused(device.faults, open, base, c, on)
        invariant device.writes == old(device.writes) + log
        invariant device.states == Replay(deviceBefore, log)
        invariant |log| == ch - 1 && ForwardWrites(log, ch - 1, on)
      {
        assert |device.writes| == base + ch - 1;
        var r;
        ghost var w;
        r, w := ForwardChannel(ch, state);
        assert w.accepted == !ForwardRefused(device.faults, open, base, ch, on);
        ReplaySnoc(deviceBefore, log, w);
        if r.Fail? {
          log := log + [w];
          FirstRefusedUnique(device.faults, open, base, channels, on, ch);
          return Some(r.error), completed, log;
        }
        ForwardWritesSnoc(log, ch - 1, on);
        log := log + [w];
        completed := completed + [ch];
      }
      FirstRefusedUnique(device.faults, open, base, channels, on, channels + 1);
    }

    /** One forward write of a bulk set: channel `ch` is switched to `state`
        and, unless the device raises, the mirror entry follows. `w` is the
        write the device saw. */
    method ForwardChannel(ch: int, state: RelayState) returns (r: Outcome<RelayError>, ghost w: Write)
      requires Valid() && 1 <= ch <= channels
      modifies this, device
      ensures Valid() && device.isOpen == old(device.isOpen)
      ensures w == Write(ch, state == On, !Refused(device.faults, old(device.isOpen), |old(device.writes)|, ch, state == On))
      ensures r.Pass? == w.accepted
      ensures r.Fail? ==> r.error == RefusalError(device.faults, |old(device.writes)|, ch, state == On)
      ensures device.writes == old(device.writes) + [w]
      ensures device.states == if w.accepted then old(device.states)[ch := w.on] else old(device.states)
      ensures states == if w.accepted then old(states)[ch - 1 := state] else old(states)
    {
      r := device.SetChannel(ch, state == On);
      w := Write(ch, state == On, r.Pass?);
      if r.Pass? {
        states := states[ch - 1 := state];
      }
    }

    /** The rollback of a failed bulk set: each channel of `completed`, in
        order, is written back to its state in `previous`, whatever the device
        answers, and the mirror entry is restored. */
    method RollBack(previous: seq<RelayState>, completed: seq<int>) returns (ghost log: seq<Write>)
      requires Valid() && |previous| == channels && |completed| <= channels
      requires forall i :: 0 <= i < |completed| ==> completed[i] == i + 1
      modifies this, device
      ensures Valid() && device.isOpen == old(device.isOpen)
      ensures device.writes == old(device.writes) + log
      ensures device.states == Replay(old(device.states), log)
      ensures |log| == |completed|
      ensures RestoreWrites(log, previous, |old(device.writes)|, device.faults, old(device.isOpen))
      ensures forall i :: 0 <= i < channels ==>
        states[i] == if i < |completed| then previous[i] else old(states)[i]
    {
      ghost var deviceBefore := device.states;
      ghost var start := states;
      ghost var base := |device.writes|;
      ghost var open := device.isOpen;
      log := [];
      for i := 0 to |completed|
        invariant Valid() && device.isOpen == open
        invariant forall j :: 0 <= j < channels ==> states[j] == if j < i then previous[j] else start[j]
        invariant device.writes == old(device.writes) + log
        invariant device.states == Replay(deviceBefore, log)
        invariant |log| == i && RestoreWrites(log, previous, base, device.faults, open)
      {
        var ch := completed[i];
        assert ch == i + 1 && |device.writes| == base + i;
        ghost var w := RestoreChannel(previous, ch);
        ReplaySnoc(deviceBefore, log, w);
        RestoreWritesSnoc(log, previous, base, device.faults, open);
        log := log + [w];
      }
    }

    /** One rollback write: channel `ch` is switched back to its state in
        `previous`, an error from the device is swallowed, and the mirror
        entry is restored either way. `w` is the write the device saw. */
    method RestoreChannel(previous: seq<RelayState>, ch: int) returns (ghost w: Write)
      requires Valid() && |previous| == channels && 1 <= ch <= channels
      modifies this, device
      ensures Valid() && device.isOpen == old(device.isOpen)
      ensures w == Write(ch, previous[ch - 1] == On,
                         !Refused(device.faults, old(device.isOpen), |old(device.writes)|, ch, previous[ch - 1] == On))
      ensures device.writes == old(device.writes) + [w]
      ensures device.states == if w.accepted then old(device.states)[ch := w.on] else old(device.states)
      ensures states == old(states)[ch - 1 := previous[ch - 1]]
    {
      var rollback := device.SetChannel(ch, previous[ch - 1] == On);
      w := Write(ch, previous[ch - 1] == On, rollback.Pass?);
      states := states[ch - 1 := previous[ch - 1]];
    }

    /** The fail-safe: writes OFF to every channel, 1 to N, going on past
        device errors, and marks every channel OFF in the mirror. `log` is the
        writes the device saw. */
    method AllOff() returns (ghost log: seq<Write>)
      requires Valid()
      modifies this, device
      ensures Valid() && device.isOpen == old(device.isOpen)
      ensures forall i :: 0 <= i < channels ==> states[i] == Off
      ensures device.writes == old(device.writes) + log
      ensures device.states == Replay(old(device.states), log)
      ensures |log| == channels && OffWrites(log, |old(device.writes)|, device.faults, old(device.isOpen))
    {
      ghost var base := |device.writes|;
      ghost var open := device.isOpen;
      ghost var deviceBefore := device.states;
      log := [];
      for ch := 1 to channels + 1
        invariant Valid() && device.isOpen == open
        invariant forall i :: 0 <= i < ch - 1 ==> states[i] == Off
        invariant device.writes == old(device.writes) + log
        invariant device.states == Replay(deviceBefore, log)
        invariant |log| == ch - 1 && OffWrites(log, base, device.faults, open)
      {
        assert |device.writes| == base + |log|;
        var ignored := device.SetChannel(ch, false);
        assert ignored.Pass? == !Refused(device.faults, open, base + |log|, |log| + 1, false);
        OffWritesSnoc(log, base, device.faults, open);
        ReplaySnoc(deviceBefore, log, Write(ch, false, ignored.Pass?));
        log := log + [Write(ch, false, ignored.Pass?)];
        states := states[ch - 1 := Off];
      }
    }
  }
}
