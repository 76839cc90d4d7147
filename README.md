# USB relay API — a verified model of its relay orchestration core

The system is a small REST API for the USB relay modules made by DCT Tech.
Each module is a HID device with a few relay channels, numbered 1 to N. This
project models, in Dafny, the layer of that API that carries the risk:

- **The relay service** (`Service`). It validates channel numbers and keeps a
  mirror of the state it last set on each channel. It performs four
  operations:
  - a single-channel set;
  - a bulk set-all, which on a partial failure writes the completed channels
    back to their previous states, restores the mirror and re-raises the
    original error;
  - the fail-safe all-off sweep, which never raises;
  - read-only queries: one channel, all channels, the channel count, the
    connection flag and the device info.
- **The device contract** (`Device`). The in-memory simulator is an open/closed
  state machine with a channel map. The USB driver is modelled through its
  open/handle flags, its guards, the 9-byte HID feature report and the
  manufacturer/product fallbacks.
- **The error taxonomy** (`Exceptions`). DeviceNotFound, DeviceConnection and
  InvalidChannel are the three variants of one datatype. Each has its
  message. Ids are rendered as `04X` hexadecimal and channels as decimals,
  both spelled out in `Format`.
- **The request/response records** (`Schemas`). This covers the enum wire
  values, the field bounds and the defaults: channel ≥ 1, channels ≥ 1,
  cycles ≥ 0 and 100 ≤ delay_ms ≤ 60000.
- **The rate limiter** (`Middleware`). It keeps a window of recent arrival
  times per client, which is pruned, checked against the limit and appended
  to. It also computes the Retry-After delay.
- **The access gates** (`Dependencies`). These are the API-key decision, the
  module-level slot holding the service instance, and the "device must be
  connected" gate.

`Scenarios` replays the service's rollback and fail-safe scenarios against
the in-memory device, asserting only what the contracts give.

### How the state is represented

- **The mirror** is a `seq<RelayState>` indexed by `channel - 1`.
- **The call log.** The in-memory device records every `set_channel` call it
  receives, with whether the call returned normally, in a log `writes`.
  `Replay` computes the device's channel map from that log.
- **Fault injection.** The device carries a fault oracle. It says which call
  raises, and with what message. It generalises the failing test double
  that raises on one channel (`MockRelayDevice.Failing`).
- **What the bulk set promises.** Each failure path states the exact sequence
  of writes the device saw:
  - channels 1..k-1 are switched, channel k is refused, and channels 1..k-1
    are then written back in ascending order;
  - each rollback write is accepted unless the device refuses that call;
  - the mirror ends equal to its state before the call;
  - the error is the one channel k raised.

  `k` is defined independently, by `FirstRefused`, as the first channel whose
  write the device refuses.
- **The clock.** The rate limiter reads the monotonic clock as an integer
  number of milliseconds. The Retry-After arithmetic, including Python's
  truncating `int()`, is written out over that integer.

Where the docstring and the code disagree, the model follows the code. The
rate limiter's docstring calls it a fixed window. The code keeps, per client,
the arrival times of the last sixty seconds, which is a sliding window, and
that is what `Step` models.

## Model

| member | source | states |
|---|---|---|
| Format.NatToDigits | app/core/exceptions.py:30 | the decimal/hex rendering has at least one digit, only digits of the base, and no leading zero; it starts with 0 exactly for zero |
| Format.DigitsRoundTrip | app/core/exceptions.py:30 | parsing the rendered digits of n gives back n |
| Format.IntToStringRoundTrip | app/core/exceptions.py:30 | the decimal form of any integer, sign included, reads back to that integer |
| Format.IntToString | app/core/exceptions.py:30 | `str(i)`: a minus sign exactly for a negative number, then decimal digits with no leading zero (`IsNumeral`); with `IntToStringRoundTrip` this fixes the string |
| Format.NumeralUnique | app/core/exceptions.py:30 | any decimal numeral (optional minus, digits, no leading zero) that reads back to i is exactly the `str(i)` rendering |
| Format.Hex04 | app/core/exceptions.py:15 | `format(i, "04X")`: at least four characters, a minus sign exactly for a negative number, then hexadecimal digits |
| Format.Hex04Digits | app/core/exceptions.py:15 | `04X` of a non-negative id is at least four upper-case hex digits, exactly four below 0x10000, and denotes the id |
| Exceptions.RelayError.Message | app/core/exceptions.py:14-31 | `str(exc)`: a DeviceNotFound message starts "Device not found: vendor=0x", an InvalidChannel message starts "Invalid channel " and ends with a full stop, a DeviceConnection message is its text |
| Exceptions.ConnectionMessageIsVerbatim | app/core/exceptions.py:19-20 | a DeviceConnection error's message is exactly the text it was raised with |
| Exceptions.NotFoundMessageShowsIds | app/core/exceptions.py:8-16 | the DeviceNotFound message is `Device not found: vendor=0x…, product=0x…` with ≥ 4 upper-case hex digits per id (exactly four below 0x10000) that denote the stored ids |
| Exceptions.InvalidChannelMessageShowsValues | app/core/exceptions.py:23-31 | the InvalidChannel message is `Invalid channel c. Must be between 1 and n.` where c and n are decimal numerals (optional minus exactly for a negative value, digits only, no leading zero) that read back to the stored channel and maximum |
| Schemas.ParseRelayState | app/models/schemas.py:8-10 | exactly "on" and "off" are accepted, each to the member with that wire value |
| Schemas.RelayStateRoundTrip | app/models/schemas.py:8-10 | reading a member's wire value gives the member back |
| Schemas.ParseBurnTestMode | app/models/schemas.py:13-15 | exactly "all" and "alternate" are accepted, each to the member with that wire value |
| Schemas.BurnTestModeRoundTrip | app/models/schemas.py:13-15 | reading a mode's wire value gives the mode back |
| Schemas.NewRelayStatus | app/models/schemas.py:28-38 | a RelayStatus is built iff channel ≥ 1, with the given fields; otherwise the `channel` field is reported |
| Schemas.NewDeviceInfo | app/models/schemas.py:51-70 | a DeviceInfo is built iff channels ≥ 1, with the given fields; otherwise the `channels` field is reported |
| Schemas.NewBurnTestRequest | app/models/schemas.py:124-151 | a request is built iff cycles ≥ 0, 100 ≤ delay_ms ≤ 60000 and the mode is a wire value (each when present); absent fields take 0, 500 and "all"; a refusal names exactly the offending numeric fields |
| Schemas.DefaultBurnTestRequest | app/models/schemas.py:136-151 | an empty body gives cycles 0 (run until stopped), 500 ms and mode ALL |
| Schemas.NewBurnTestStatus | app/models/schemas.py:154-180 | the status carries the given counters, and a missing mode defaults to ALL |
| Device.Command | app/core/device.py:72-73 | the HID report is always nine bytes long |
| Device.CommandRoundTrip | app/core/device.py:35-36 | the report names its channel and state (0xFF on, 0xFD off), and only that channel and state produce it |
| Device.ReplayLastWriteWins | app/core/device.py:123-126 | on the in-memory device each channel holds the value of the last accepted write to it; an untouched channel keeps its entry |
| Device.InitialStates | app/core/device.py:115 | the map of a just-opened simulator has exactly the channels 1..N, all off |
| Device.MockRelayDevice.constructor | app/core/device.py:108-111 | a new simulator is closed with an empty channel map and no faults |
| Device.MockRelayDevice.Failing | tests/test_services.py:267-279 | the failing test double: every call for the chosen channel raises "Simulated failure on channel c", and no other call is faulted |
| Device.MockRelayDevice.WithFaults | tests/test_services.py:267-279 | a closed simulator with an arbitrary fault oracle |
| Device.MockRelayDevice.Open | app/core/device.py:113-116 | opening sets the flag and resets channels 1..N to off |
| Device.MockRelayDevice.Close | app/core/device.py:118-121 | closing clears the flag and empties the channel map |
| Device.MockRelayDevice.SetChannel | app/core/device.py:123-128 | a call goes through iff it is not faulted and the device is open; it records the value for that channel only; a refused call changes no channel and raises the injected message or "Mock device is not open" |
| Device.MockStrings | app/core/device.py:134-140 | about `MockRelayDevice.Manufacturer` and `MockRelayDevice.Product`: an open simulator reports MockManufacturer / MockRelay, a closed one Unknown / Unknown |
| Device.HIDRelayDevice.constructor | app/core/device.py:42-46 | a new driver keeps its ids and is closed, with no handle |
| Device.HIDRelayDevice.Open | app/core/device.py:48-60 | `open` as written: opening an open device changes nothing; a successful open with readable strings sets flag and handle; a failed library open leaves no handle, stays closed and raises DeviceNotFound with the ids; a string read that fails after the library open raises DeviceNotFound but leaves the flag set with no handle |
| Device.HIDRelayDevice.OpenReleasing | app/core/device.py:48-60 | the corrected `open`: it succeeds iff the library open and the string reads do; every failure raises DeviceNotFound with the ids and leaves the driver closed with no handle; an open driver always holds a handle |
| Device.FailedStringReadLeavesDriverStuck | app/core/device.py:48-79 | after `open` fails on the string read, the driver reports itself open without a handle; `set_channel` refuses with "Device is not open", `close` changes nothing and a second `open` returns without repairing it |
| Device.FailedStringReadAllowsRetry | app/core/device.py:48-60 | with the corrected `open`, the same failure leaves the driver closed and a second attempt opens it with a handle |
| Device.HIDRelayDevice.Close | app/core/device.py:62-67 | an open device with a handle loses both; otherwise nothing changes |
| Device.HIDRelayDevice.SetChannel | app/core/device.py:69-79 | without flag and handle: "Device is not open" and nothing sent; otherwise the report for (channel, on) is sent, and a send error becomes "Failed to set channel c: …" |
| Device.HIDRelayDevice.Manufacturer | app/core/device.py:85-89 | Unknown unless open with a handle; the library's string when it is non-empty, and Unknown when it is missing or empty; never empty |
| Device.HIDRelayDevice.Product | app/core/device.py:91-95 | Unknown unless open with a handle; the library's string when it is non-empty, and Unknown when it is missing or empty; never empty |
| Service.SetMirror | app/services/relay_service.py:44 | setting one channel changes that entry of the mirror and no other |
| Service.LastSetWins | app/services/relay_service.py:39-47 | after any serialised sequence of single-channel sets, each channel holds the state of the last set made to it, or its old state if none was |
| Service.FirstRefused | app/services/relay_service.py:70-73 | the channel where the forward pass stops: every earlier forward write goes through and this one (if ≤ N) is refused |
| Service.FirstRefusedUnique | app/services/relay_service.py:70-73 | any channel with those two properties is that stopping point |
| Service.FailedBulkLog | app/services/relay_service.py:69-85 | the forward writes up to the refused one, followed by the rollback writes, form the log of a failed bulk set |
| Service.RelayService.constructor | app/services/relay_service.py:22-28 | a new service mirrors channels 1..N, all OFF, without touching the device |
| Service.RelayService.ValidateChannel | app/services/relay_service.py:30-32 | a channel passes iff 1 ≤ channel ≤ N; otherwise InvalidChannel(channel, N) |
| Service.RelayService.GetChannel | app/services/relay_service.py:49-51 | an in-range channel yields its mirrored state as a valid RelayStatus; out of range, InvalidChannel |
| Service.RelayService.GetAllChannels | app/services/relay_service.py:53-57 | N valid statuses, entry i for channel i + 1 with its mirrored state |
| Service.RelayService.AllChannelsAgree | app/services/relay_service.py:49-57 | the list agrees with the single-channel query and is strictly ascending by channel |
| Service.RelayService.ChannelCount | app/services/relay_service.py:102-104 | the configured count, which is the length of the mirror and of the channel list |
| Service.RelayService.IsDeviceConnected | app/services/relay_service.py:106-108 | the device's open flag, which holds exactly when the device does not identify itself as Unknown |
| Service.RelayService.GetDeviceInfo | app/services/relay_service.py:110-116 | the configured count and the open flag; MockManufacturer / MockRelay when connected, Unknown / Unknown otherwise; a zero count fails validation |
| Service.RelayService.SetChannel | app/services/relay_service.py:39-47 | an invalid channel fails before any device call; otherwise exactly one device write; on success the mirror changes in that channel only and (channel, state) is returned; a device error leaves the mirror and is propagated |
| Service.RelayService.SetAllChannels | app/services/relay_service.py:59-88 | success iff no forward write is refused, with every channel at `state`, the full list returned, and writes 1..N in order; on failure at channel k: k forward writes, then rollback writes for 1..k-1 in order, the mirror equal to its old value, and channel k's error |
| Service.RelayService.WriteForward | app/services/relay_service.py:70-73 | writes channels 1..N in ascending order and stops at the first refused one; completed = 1..k-1; the mirror is updated for exactly those channels |
| Service.RelayService.ForwardChannel | app/services/relay_service.py:71-73 | one forward write: the mirror entry follows only if the device accepts |
| Service.RelayService.RollBack | app/services/relay_service.py:74-85 | each completed channel, in order, is written back to its previous value, whatever the device answers; the mirror entries of those channels are restored |
| Service.RelayService.RestoreChannel | app/services/relay_service.py:76-84 | one rollback write; a device error is swallowed and the mirror entry is restored regardless |
| Service.RelayService.AllOff | app/services/relay_service.py:90-100 | writes OFF to channels 1..N in order, going on past errors; every mirror entry ends OFF; never raises |
| Middleware.Prune | app/middleware.py:38-41 | keeps every time strictly after the window start as often as it occurs and drops every other, as a subsequence of the input (so in order); sorted input gives sorted output |
| Middleware.PruneSortedSuffix | app/middleware.py:38-41 | on an ascending list, pruning drops a prefix |
| Middleware.PruneAllKept | app/middleware.py:38-41 | when nothing has expired, pruning changes nothing |
| Middleware.Step | app/middleware.py:30-52 | with a positive limit the client's key is added to the window map and no other key is |
| Middleware.RetryAfter | app/middleware.py:44 | one more than the whole seconds left until the oldest request expires, truncated toward zero |
| Middleware.TruncDiv | app/middleware.py:44 | division truncating toward zero, as Python's `int()` of a quotient |
| Middleware.RetryAfterSound | app/middleware.py:43-44 | for a request inside the window the delay is ≥ 1 and ≤ 61 seconds, and waiting it out lets the oldest request expire |
| Middleware.ClientKey | app/middleware.py:34 | requests are counted under the client host, or "unknown" |
| Middleware.LimiterOff | app/middleware.py:30-32 | with a limit ≤ 0 every request passes and the window map is untouched |
| Middleware.StepDecision | app/middleware.py:30-52 | a request is allowed iff the limiter is off or fewer than `limit` unexpired times remain; a refusal carries a positive delay |
| Middleware.StepKeepsOthers | app/middleware.py:38-52 | other clients' windows are untouched |
| Middleware.StepKeepsBound | app/middleware.py:43-52 | with a fixed limit no client ever holds more than `limit` times |
| Middleware.StepKeepsOrder | app/middleware.py:35-52 | under a monotonic clock every list stays ascending, and the client's list holds only the last minute |
| Middleware.RateLimitMiddleware.constructor | app/middleware.py:23-25 | the limiter starts with no client windows |
| Middleware.RateLimitMiddleware.Dispatch | app/middleware.py:27-53 | the decision and the new window map are those of one `Step` |
| Middleware.AdmitFirst | app/middleware.py:39-52 | in any window map, a client's first request is allowed and recorded alone, and every other entry is kept |
| Middleware.AdmitWithin | app/middleware.py:38-52 | in any window map, a client with fewer than `limit` unexpired times is allowed; its entry becomes those times followed by `now`, and every other entry is kept |
| Middleware.RefuseFull | app/middleware.py:38-50 | in any window map, a client with `limit` or more unexpired times is refused with the Retry-After of the oldest of them; its entry becomes the pruned times, nothing is appended, and every other entry is kept |
| Middleware.BurstFirstTwo | tests/test_api_auth.py:109-114 | with a limit of three, the first two requests of a burst are allowed |
| Middleware.BurstThird | tests/test_api_auth.py:109-114 | the third is allowed as well |
| Middleware.BurstFourth | tests/test_api_auth.py:116-125 | the fourth is refused with a Retry-After of 60 seconds |
| Middleware.BurstOfFour | tests/test_api_auth.py:109-125 | the whole burst: three allowed and recorded, the fourth refused with Retry-After 60 |
| Dependencies.VerifyApiKey | app/api/dependencies.py:21-36 | no configured key: every request passes; otherwise a request passes iff its header equals the key, and a refusal is 401 "Invalid or missing API key" |
| Dependencies.EmptyHeaderRefused | app/api/dependencies.py:32-36 | an empty header is treated as a missing one: it passes only when authentication is off |
| Dependencies.RequireDevice | app/api/dependencies.py:58-71 | the service is returned unchanged iff its device is connected; otherwise 503 "USB relay device is not connected" |
| Dependencies.ServiceSlot.constructor | app/api/dependencies.py:11 | the slot starts empty |
| Dependencies.ServiceSlot.InitRelayService | app/api/dependencies.py:16-18 | the slot holds the given service, or is empty again when given null |
| Dependencies.ServiceSlot.GetRelayService | app/api/dependencies.py:39-44 | the key check first, then "RelayService not initialized" while the slot is empty, else the stored service |
| Dependencies.ServiceSlot.GetRelayServicePublic | app/api/dependencies.py:47-55 | the stored service, or "RelayService not initialized", with no key check |
| Dependencies.ServiceSlot.PublicSkipsKey | app/api/dependencies.py:47-55 | the public accessor answers as the authenticated one with authentication off, and as it does for any authorised request |
| Dependencies.ServiceSlot.RequireDeviceRoute | app/api/dependencies.py:58-71 | a hardware route succeeds iff authorised, initialised and connected; earlier gate failures pass through unchanged; an authorised, initialised route with a closed device gets 503 |

## Left out

- Pulse timers and the burn-test loop: the application start-up passes a `pulse_ms` setting to the service (app/main.py:44-46), and the routes call `start_burn_test`, `get_burn_test_status` and `stop_burn_test` (app/api/v1/relays.py:64-97). The service code in this model has no such parameter or methods, so none of them is modelled. Only the burn-test request and status records are.
- `threading.Lock`: each service method is one atomic step. Concurrent callers are modelled as a serialised sequence of calls (`LastSetWins`).
- Audit and log output, including the wall-clock ISO timestamps of the audit lines, are not modelled. A rollback write that fails is only logged, so the model swallows its error.
- The `hid` library calls are parameters: whether `open` succeeds, the error of `send_feature_report`, and the strings the device reports. `HIDRelayDevice.Open` models the IOError paths of `open`: from the library open, and from the string reads after the flag is set. Any other exception from the library is not modelled.
- `HIDRelayDevice.SetChannel`: the channel is an unbounded integer. A channel outside 0..255 does not fit the report byte; the library then raises an error that is not an IOError and leaves `set_channel` unwrapped. The model does not bound the channel and sends the report instead.
- The service is modelled over the in-memory simulator with a fault oracle. The `RelayDevice` protocol is not written as an interface of its own, because the model has no traits. The service therefore does not describe the USB driver under it.
- The fault oracle is checked before the open flag. This matches the failing test double, which raises before delegating to the simulator.
- The simulator's call log `writes` is a field of the model that the source simulator does not have. The model needs it because the fault oracle is indexed by call number, `|writes|`, and the test double's channel check does not depend on it. The write logs returned by the bulk set and the fail-safe are ghost out-parameters. They describe what the device saw and have no counterpart in the code.
- FastAPI routing, the HTTP response for 429 (headers, JSON body), CORS, lifespan and settings loading are glue and are not modelled. The mapping of relay errors to 404/502 statuses in the routes is also left out.
- `time.monotonic()` returns a float in seconds. The model uses integer milliseconds, so sub-millisecond differences are not represented.
- `hmac.compare_digest` is modelled as string equality. Its constant-time behaviour is not modelled, nor is the TypeError it raises on non-ASCII `str` input.
- The simulator's default of two channels is not modelled. Every constructor takes the count explicitly, as `MockRelayDevice(channels=...)` does.
- The channel count is a natural number. The source's behaviour with a negative configured count is not modelled.
- Pydantic's lax coercion of input types (e.g. the string "5" for an int field) is not modelled. Records are built from typed values.
- The `defaultdict` in the rate limiter inserts an empty list for a client on first lookup. The model inserts the pruned list at that point, which is the same entry.

## Findings

| source | as written | input that shows it | evidently intended | confidence | as-written member | corrected member |
|---|---|---|---|---|---|---|
| app/core/device.py:52-60 | `_is_open` is set before the manufacturer and product strings are read for the log line; if that read raises IOError, the handler drops the handle but leaves `_is_open` True | the library open succeeds, then `get_manufacturer_string` raises IOError | a failed `open` leaves the driver closed, so that `is_open` is False and `open` can be retried | not executed; depends on the library raising IOError from a string read | Device.HIDRelayDevice.Open, Device.FailedStringReadLeavesDriverStuck | Device.HIDRelayDevice.OpenReleasing, Device.FailedStringReadAllowsRetry |
