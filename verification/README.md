# Laifen toothbrush integration — a Dafny model

This project models the core of the Home Assistant integration for Laifen
Bluetooth toothbrushes:

- the device's wire format: the telemetry decoder `parse_data`, the frame
  test of the notification callback, and the two command frames;
- the `Laifen` device object: connection retries, notification set-up and
  tear-down, command writes, polling and the notification callback, and the
  scan filter;
- the sensor entity's `native_value` with its last-value cache;
- the per-device state file of `state_cache.py`.

The repository holds two byte-identical copies of `laifen.py`
(`custom_components/laifen_ble/laifen.py` and
`custom_components/laifen_ble/laifen/laifen.py`) and two of the sensor
platform (`sensor.py` and `custom_components/laifen_ble/sensor.py`). One
model serves each pair, and the table cites the first copy.

Modules:

- `Wrappers`: an `Option` type.
- `PyText`: the Python string operations the code relies on, with their
  exact semantics. It covers clamping slices, indexing that raises,
  `startswith`, `in`, `replace(':', '')` and `str(int)`.
- `Hex`: `bytes.hex()` (lowercase), `bytes.fromhex()` (either case) and
  `int(s, 16)` on digit strings.
- `Codec`: decoding and encoding.
- `Device`: the `Laifen` class.
- `Sensor`: the `LaifenSensor` class.
- `StateCache`: `save_device_state` and `load_device_state`.

The telemetry decoder is stated twice:

- on the hex string, step by step as the code reads it (`Codec.DecodeHex`);
- on bytes (`Codec.Layout`). On bytes:
  - hex character 9 is the low nibble of byte 4, the 0-based mode `m`;
  - character 47 is the low nibble of byte 23;
  - `[36:38]` is byte 18;
  - `[40:44]` is bytes 20–21, big-endian;
  - the mode's three settings are bytes `5+3m`, `6+3m` and `7+3m`.

`Codec.DecodeHexOfBytes` proves that the two descriptions agree on every
frame. Decoding succeeds exactly when the frame has at least 24 bytes and at
least `8+3m`. Every other frame gives the all-None sentinel.

The Bluetooth transport is not modelled. Each call into it is an outcome
handed to the method as a parameter, indexed by attempt:
- `client.connect()` is `Device.ConnectOutcome`;
- `start_notify` is `Device.NotifyOutcome`;
- `read_gatt_char` is `Device.ReadOutcome`. In `gatherdata`, each read is
  one `Device.Pass`, which also says whether the link survives that pass;
- for `write_gatt_char`, `stop_notify` and `client.disconnect()`, a flag
  says whether the call succeeded.

Inside one `gatherdata` call, the connect and start-notify outcomes form one
stream, consumed in call order. An empty read after which the link dropped
sends the recursive call through its own reconnect, which takes the next
outcomes of the stream.

The coordinator callback appends the reading to the `published` field, and
successful writes are logged in `written`.

Where the code differs from the integration's documented intent, the model
follows the code:

- The 60-second `asyncio.TimeoutError` of a connect attempt is not caught
  by `except BleakError`. It therefore escapes `connect`, `send_command`,
  `gatherdata` and `set_ble_device`, where `Device.Exit` models it as
  `TimedOut`. So a command can end in an exception, not only in `False`.
- The notification callback stores the sentinel for an accepted frame that
  does not decode (`Codec.AcceptedButNotDecodable`).
- Polling stores frames that lack the preamble
  (`Device.PollingIgnoresPreamble`).
- The reconnect inside the recursive `gatherdata` call sits inside the
  `try`, so its connect timeout is caught rather than escaping
  (`Device.InnerTimeoutCaught`).
- An exception from `client.disconnect()` escapes `disconnect`.
- Decoding keeps the code's `"Running"`/`"Idle"`/None status values.

## Model

| member | source | states |
|---|---|---|
| PyText.CharAt | custom_components/laifen_ble/laifen.py:192 | `s[i]` yields a character exactly when `i` is below the length, and then the character at `i`; otherwise it is the IndexError |
| PyText.Slice | custom_components/laifen_ble/laifen.py:194-201 | `s[i:j]` never raises: it has `min(j, len(s)) - i` characters (none for a reversed or out-of-range start), and character `k` is `s[i + k]` |
| PyText.SliceWithin | custom_components/laifen_ble/laifen.py:194-201 | a Python slice within bounds is the subsequence `s[i..j]`; from the end of the string on, it is empty |
| PyText.Contains | custom_components/laifen_ble/laifen.py:132 | `sub in s` holds exactly when `sub` occurs at some index of `s` |
| PyText.Remove | custom_components/laifen_ble/state_cache.py:15 | `replace(':', '')` leaves no `:`, never lengthens, and keeps only characters of the input |
| PyText.RemoveAppend | custom_components/laifen_ble/state_cache.py:15 | removing a character distributes over concatenation |
| PyText.RemoveAbsent | custom_components/laifen_ble/state_cache.py:15 | a string without the character is unchanged |
| PyText.RemoveIdempotent | custom_components/laifen_ble/state_cache.py:15 | stripping an already stripped address changes nothing |
| PyText.IntToString | custom_components/laifen_ble/laifen.py:193 | `str(n)` is a non-empty string of decimal digits, one character exactly for `n < 10` |
| PyText.IntToStringRoundTrip | custom_components/laifen_ble/laifen.py:193 | reading the decimal numeral back gives `n` |
| PyText.IntToStringInjective | custom_components/laifen_ble/laifen.py:193 | distinct numbers print differently |
| PyText.SingleDigitString | custom_components/laifen_ble/laifen.py:193 | `str(n)` is the one-digit string `d` exactly when `n == d` |
| Hex.HexDigit | custom_components/laifen_ble/laifen.py:188 | the digit `bytes.hex()` writes for a nibble reads back as that nibble |
| Hex.DigitValue | custom_components/laifen_ble/laifen.py:193 | `int(c, 16)` of one character is a nibble below 16, or the ValueError |
| Hex.ToHex | custom_components/laifen_ble/laifen.py:188 | `data.hex()` has two characters per byte |
| Hex.ToHexAt | custom_components/laifen_ble/laifen.py:188 | hex characters `2i` and `2i+1` are the high and low nibble of byte `i` |
| Hex.FromHex | custom_components/laifen_ble/laifen.py:82 | a successful `bytes.fromhex` had two digits per byte |
| Hex.ToHexUnique | custom_components/laifen_ble/laifen.py:188 | a string with the right digit pairs at every position is the hex of those bytes |
| Hex.FromHexPairs | custom_components/laifen_ble/laifen.py:82 | digit pairs in either case, each spelling a byte, are read back by `fromhex` as exactly those bytes |
| Hex.FromHexToHex | custom_components/laifen_ble/laifen.py:188 | `fromhex` undoes `hex` on every byte string |
| Hex.ToHexInjective | custom_components/laifen_ble/laifen.py:161 | different byte strings have different hex |
| Hex.ToHexAppend | custom_components/laifen_ble/laifen.py:188 | the hex of a concatenation is the concatenation of the hexes |
| Hex.ToHexSlice | custom_components/laifen_ble/laifen.py:161 | hex characters `2i` to `2j` are the hex of bytes `i` to `j` |
| Hex.ToHexSingle | custom_components/laifen_ble/laifen.py:188 | one byte gives its two nibble digits |
| Hex.ToHexTail | custom_components/laifen_ble/laifen.py:188 | dropping the first byte drops the first two hex characters |
| Hex.ParseHexInt | custom_components/laifen_ble/laifen.py:194 | `int(s, 16)` succeeds only on a non-empty string, so an empty slice raises |
| Hex.ParseHexAppend | custom_components/laifen_ble/laifen.py:194-195 | appending a digit multiplies the value by 16 and adds the digit |
| Hex.ParseHexPair | custom_components/laifen_ble/laifen.py:194-195 | appending a byte's two digits multiplies the value by 256 and adds the byte |
| Hex.ParseHexOfBytes | custom_components/laifen_ble/laifen.py:195 | reading the hex of some bytes as one number gives their big-endian value |
| Hex.PairValue | custom_components/laifen_ble/laifen.py:194 | two digits read as their byte |
| Hex.QuadValue | custom_components/laifen_ble/laifen.py:195 | four digits read as two bytes, most significant first |
| Hex.ParseHexDigit | custom_components/laifen_ble/laifen.py:193 | `int(c, 16)` of a single character is that digit's value |
| Codec.DigitOne | custom_components/laifen_ble/laifen.py:192 | the status character is `'1'` exactly when the nibble is 1 |
| Codec.DecodeHex | custom_components/laifen_ble/laifen.py:191-201 | a successful decode of the hex string had a status character at 47 and a mode index below 16 whose three settings fit in the string |
| Codec.HexField | custom_components/laifen_ble/laifen.py:194-201 | `int(data_str[i:j], 16)` succeeds only on a non-empty slice that starts inside the string |
| Codec.ModeSettings | custom_components/laifen_ble/laifen.py:198-201 | the three settings of mode `m` are read only when character `14 + 6m` exists |
| Codec.HexOfToHex | custom_components/laifen_ble/laifen.py:188 | `data.hex()` spells every byte of the frame at positions `2i`, `2i+1` |
| Codec.DecodeHexOfBytes | custom_components/laifen_ble/laifen.py:188-201 | decoding the hex of a frame succeeds exactly on frames of at least 24 and at least `8+3m` bytes, and then yields the byte layout field by field |
| Codec.DecodeOfHex | custom_components/laifen_ble/laifen.py:191-214 | the same for any string that spells the frame; every other frame raises inside the try block, giving the sentinel |
| Codec.HeaderFacts | custom_components/laifen_ble/laifen.py:192-195 | status, mode, battery and brushing time read from characters 47, 9, 36-37 and 40-43 as bytes 23, 4, 18 and 20-21 |
| Codec.SettingsFacts | custom_components/laifen_ble/laifen.py:198-201 | the active mode's three settings read as bytes `5+3m`, `6+3m`, `7+3m` |
| Codec.DecodeOfFacts | custom_components/laifen_ble/laifen.py:191-201 | once every field reads as its bytes, decoding yields the layout |
| Codec.LayoutFields | custom_components/laifen_ble/laifen.py:192-201 | the layout of a decodable frame, field by field |
| Codec.StatusAt | custom_components/laifen_ble/laifen.py:192 | character 47 exists and is `'1'` exactly when byte 23's low nibble is 1 |
| Codec.ModeAt | custom_components/laifen_ble/laifen.py:193 | character 9 exists and reads as byte 4's low nibble |
| Codec.SecondsAt | custom_components/laifen_ble/laifen.py:195 | characters 40-43 read as bytes 20-21 big-endian |
| Codec.PairAt | custom_components/laifen_ble/laifen.py:194 | characters `2i`, `2i+1` read as byte `i` |
| Codec.SettingsMissing | custom_components/laifen_ble/laifen.py:201-202 | for a frame of 24 or more bytes that is too short for its mode, the speed slice is empty and `int` raises |
| Codec.SettingsFromFields | custom_components/laifen_ble/laifen.py:199-201 | the three settings are the three two-digit fields of the mode |
| Codec.DecodeFromParts | custom_components/laifen_ble/laifen.py:191-201 | decoding gives the fields in the order the code reads them |
| Codec.DecodeTruncated | custom_components/laifen_ble/laifen.py:199-202 | a failing settings read fails the whole decode |
| Codec.ParseData | custom_components/laifen_ble/laifen.py:173-226 | None gives the sentinel with empty `raw_data`; bytes give their hex as `raw_data`, and every field exactly when the frame is decodable, the sentinel otherwise |
| Codec.PreambleOnBytes | custom_components/laifen_ble/laifen.py:161 | the hex starts with `aa0a0215` exactly when the first four bytes are AA 0A 02 15 |
| Codec.Accepts | custom_components/laifen_ble/laifen.py:158-163 | the callback's test holds exactly for frames of at least 25 bytes that start with AA 0A 02 15 |
| Codec.AcceptedButNotDecodable | custom_components/laifen_ble/laifen.py:161-169 | an accepted 25-byte frame with mode nibble 6 or more parses to the sentinel |
| Codec.XorSnoc | custom_components/laifen_ble/laifen.py:82 | the XOR fold takes one more byte by XOR-ing it in |
| Codec.HeadXor | custom_components/laifen_ble/laifen.py:82 | the four header bytes AA 0F 01 01 XOR to A5 |
| Codec.CommandHex | custom_components/laifen_ble/laifen.py:82-87 | each command literal is twelve hex digits |
| Codec.CommandBytes | custom_components/laifen_ble/laifen.py:82-87 | a command frame is 6 bytes: AA 0F 01 01, 1 for on and 0 for off, then the XOR of the first five |
| Codec.CommandLiteral | custom_components/laifen_ble/laifen.py:82-87 | `bytes.fromhex` of each literal is exactly that command's frame |
| Codec.Lookup | custom_components/laifen_ble/laifen.py:216-226 | the dict has exactly the eight keys; `raw_data` is the hex; the sentinel holds None under every other key |
| Codec.Get | custom_components/laifen_ble/laifen.py:106 | `reading.get(key)` is the stored value for every key of the dict, and None for any other key |
| Device.ConnectTries | custom_components/laifen_ble/laifen.py:48-60 | the retry loop makes between 1 and 10 connect calls |
| Device.ConnectResult | custom_components/laifen_ble/laifen.py:48-60 | the loop times out only if some attempt within the limit timed out, and returns true only if some attempt linked |
| Device.ConnectSucceedsFrom | custom_components/laifen_ble/laifen.py:48-54 | the loop returns true exactly when some attempt within the limit connects after only failed attempts |
| Device.ConnectExhaustedFrom | custom_components/laifen_ble/laifen.py:48-60 | the loop returns false exactly when all ten attempts fail, and then it made ten attempts |
| Device.NotifyTries | custom_components/laifen_ble/laifen.py:126-138 | start-notify makes between 1 and 5 attempts |
| Device.NotifyFails | custom_components/laifen_ble/laifen.py:131-135 | only an error makes the loop try again, and every error shorter than the "already enabled" phrase does |
| Device.AlreadyEnabledAnywhere | custom_components/laifen_ble/laifen.py:131-134 | an error whose text contains "Notifications are already enabled" anywhere ends the loop |
| Device.Polled | custom_components/laifen_ble/laifen.py:100-115 | polling never yields the sentinel |
| Device.PolledFrame | custom_components/laifen_ble/laifen.py:103-109 | a non-empty read is stored exactly when its frame is decodable, as its parse |
| Device.PolledSkipsEmpty | custom_components/laifen_ble/laifen.py:110-113 | empty reads are retried until a non-empty one arrives |
| Device.PollingIgnoresPreamble | custom_components/laifen_ble/laifen.py:100-109 | a decodable frame that the callback would reject is still stored by polling |
| Device.UnacceptedDecodableFrame | custom_components/laifen_ble/laifen.py:161 | such frames exist |
| Device.Kept | custom_components/laifen_ble/laifen.py:103-109 | a kept read is the frame's parse, never the sentinel |
| Device.Gather | custom_components/laifen_ble/laifen.py:89-115 | a `gatherdata` call ends in the connect timeout exactly when it had to reconnect and that reconnect timed out; notifications end with the link; a stored reading is never the sentinel and is the parse of a frame one of its passes read |
| Device.Reads | custom_components/laifen_ble/laifen.py:100-115 | once linked, the reads never raise; notifications end with the link; a stored reading is the parse of a frame one of its passes read |
| Device.ReadsOnSteadyLink | custom_components/laifen_ble/laifen.py:100-115 | while the link holds through every pass, the reads store exactly what `Polled` describes and notifications stay as they were |
| Device.InnerTimeoutCaught | custom_components/laifen_ble/laifen.py:110-115 | after an empty read the link drops; if the recursive call's reconnect then times out, the timeout is caught and the call ends with no link and no reading |
| Device.IsLaifen | custom_components/laifen_ble/laifen.py:29 | a passing advertisement has a name of at least four characters, so nameless devices never pass |
| Device.LaifenAdverts | custom_components/laifen_ble/laifen.py:29 | the filter keeps exactly the advertisements with a name that starts with `LFTB` |
| Device.LaifenAdvertsCount | custom_components/laifen_ble/laifen.py:29 | the filter keeps one entry for each passing advertisement, repeats included |
| Device.LaifenAdvertAt | custom_components/laifen_ble/laifen.py:29 | the passing advertisement at scan index `i` sits at the position given by the number of passing advertisements before it |
| Device.LaifenAdvertsInOrder | custom_components/laifen_ble/laifen.py:29 | the filter's result is fixed by the two facts above: scan order and repeats are kept |
| Device.ScanForDevices | custom_components/laifen_ble/laifen.py:24-36 | None exactly when no device passes the filter, otherwise the non-empty filtered list, in scan order |
| Device.FirstWithAddress | custom_components/laifen_ble/laifen.py:270 | the index of the first device with the address; none before it has the address |
| Device.MatchingDevice | custom_components/laifen_ble/laifen.py:270 | the first found device with the address, None exactly when no device has it |
| Device.MatchingDeviceCons | custom_components/laifen_ble/laifen.py:270 | with one device in front, the selection is that device if it has the address, and otherwise the selection from the rest |
| Device.MatchingDeviceOfScan | custom_components/laifen_ble/laifen.py:270 | selecting from a scan's results gives the first device in scan order that passes the filter and has the address |
| Device.Laifen.constructor | custom_components/laifen_ble/laifen.py:14-22 | a new device is disconnected, has never connected and holds no reading |
| Device.Laifen.Connect | custom_components/laifen_ble/laifen.py:38-60 | if already connected it returns true without an attempt and records the connection; otherwise it returns the retry loop's result, stays connected only on true, leaves the history flag alone and can time out |
| Device.Laifen.StartNotifications | custom_components/laifen_ble/laifen.py:117-138 | makes no attempt when disconnected; otherwise it gives up (returns `False`) exactly when all five attempts fail with another error; success or "already enabled" starts notifications |
| Device.Laifen.StopNotifications | custom_components/laifen_ble/laifen.py:140-151 | notifications stop only on a live connection whose `stop_notify` succeeds |
| Device.Laifen.SendCommand | custom_components/laifen_ble/laifen.py:62-77 | reconnects if needed; true exactly when connected (or reconnected) and the write succeeded, and only then is the frame written; a failed reconnect returns false or times out |
| Device.Laifen.TurnOn | custom_components/laifen_ble/laifen.py:79-82 | as `send_command` does, and on success the frame AA 0F 01 01 01 A4 is written |
| Device.Laifen.TurnOff | custom_components/laifen_ble/laifen.py:84-87 | as `send_command` does, and on success the frame AA 0F 01 01 00 A5 is written |
| Device.Laifen.GatherData | custom_components/laifen_ble/laifen.py:89-115 | leaves the device exactly as `Gather` describes: exit, link, notifications, and the reading stored and published |
| Device.Laifen.ReadPasses | custom_components/laifen_ble/laifen.py:100-115 | leaves the device exactly as `Reads` describes |
| Device.Laifen.NotificationHandler | custom_components/laifen_ble/laifen.py:153-171 | an accepted frame's parse (sentinel included) is stored and published; any other frame changes nothing |
| Device.Laifen.SetBleDevice | custom_components/laifen_ble/laifen.py:228-235 | a new disconnected client for the new address, then connect, then notifications if connected |
| Device.Laifen.Disconnect | custom_components/laifen_ble/laifen.py:280-284 | on a live link whose `client.disconnect()` raises, the error escapes and nothing changes; otherwise the device ends disconnected and not notifying |
| Sensor.RegisteredSensorsShow | custom_components/laifen_ble/sensor.py:35-72 | every registered key shows a value without reaching the final subscript; numeric sensors show the reading's value, None included |
| Sensor.ModeShown | custom_components/laifen_ble/sensor.py:137-149 | the mode mapping never shows "0", keeps text as text, and leaves any value whose text is not one character unchanged |
| Sensor.Displayed | custom_components/laifen_ble/sensor.py:111-152 | `native_value` reaches a value for exactly the keys of the reading dict, with KeyError for any other key; the status sensor shows "Running" or "Idle" |
| Sensor.StatusSensorAlwaysIdle | custom_components/laifen_ble/sensor.py:121-124 | for every reading the decoder can produce, the status sensor shows "Idle" |
| Sensor.RunningReading | custom_components/laifen_ble/laifen.py:192 | the reading of a running brush has status "Running" |
| Sensor.ModeValue | custom_components/laifen_ble/laifen.py:193 | the reading's mode is `str(m + 1)` |
| Sensor.ModeShownOfNumeral | custom_components/laifen_ble/sensor.py:137-149 | on the numeral of `n >= 1` the mapping shows `n + 1` up to 3 and `n` after |
| Sensor.ModeSensorShifted | custom_components/laifen_ble/sensor.py:137-149 | mode index `m` shows `m + 2` for `m < 3` and `m + 1` after |
| Sensor.ModeSensorCollides | custom_components/laifen_ble/sensor.py:137-149 | mode indices 2 and 3 both show "4" |
| Sensor.IntendedStatusShown | custom_components/laifen_ble/sensor.py:121-124 | the corrected status sensor shows "Running" exactly for decodable frames whose status nibble is 1 |
| Sensor.IntendedModeShown | custom_components/laifen_ble/sensor.py:137-149 | the corrected mode sensor shows `str(m + 1)`, and distinct modes show distinct values |
| Sensor.LaifenSensor.constructor | custom_components/laifen_ble/sensor.py:93-98 | the cache starts as None |
| Sensor.LaifenSensor.NativeValue | custom_components/laifen_ble/sensor.py:111-152 | with no reading it shows the cache and keeps it; otherwise it shows the sensor's value and caches exactly that value; a key the reading lacks raises and leaves the cache alone |
| StateCache.FileNameParts | custom_components/laifen_ble/state_cache.py:15 | the file name is `laifen_`, then the address without colons, then `.json`, and holds no colon |
| StateCache.FileName | custom_components/laifen_ble/state_cache.py:15 | the name starts with `laifen_`, ends with `.json`, and is as long as both plus the stripped address |
| StateCache.SameFileIffSameStripped | custom_components/laifen_ble/state_cache.py:26 | two addresses share a file exactly when they agree once colons are removed |
| StateCache.ColonsCollide | custom_components/laifen_ble/state_cache.py:15 | a colon anywhere in an address makes no difference to its file |
| StateCache.Save | custom_components/laifen_ble/state_cache.py:11-20 | never raises; only the address's own file changes; a failed open changes nothing |
| StateCache.Load | custom_components/laifen_ble/state_cache.py:23-36 | a dict exactly when the address's file exists and reads back; None otherwise |
| StateCache.LoadAfterSave | custom_components/laifen_ble/state_cache.py:15-31 | loading after a successful save for the address gives back the saved dict |
| StateCache.LoadAfterFailedDump | custom_components/laifen_ble/state_cache.py:16-35 | after a failed dump the address loads as None |
| StateCache.SaveIsolation | custom_components/laifen_ble/state_cache.py:15-17 | a save leaves every address with a different stripped form loading as before; each address with the same stripped form loads the saved dict |

## Left out

- Bluetooth transport (`BleakClient`, `BleakScanner`): each of its calls is an outcome parameter, as described above. Exceptions other than BleakError and the asyncio timeouts are not modelled.
- Loss of the link is modelled only while `gatherdata` reads (`Device.Pass`). Between operations, and during the connect, start-notify, write and stop-notify calls, the link stays as the model's methods leave it.
- `asyncio.Lock`, the sleeps between attempts, and logging: the model is sequential, and the lock only serialises concurrent callers.
- The 20-second read window of `gatherdata` is the finite list of passes. When the list runs out, the window has expired and nothing more is read. A window that expires in the middle of a recursive call's reconnect is not modelled: that reconnect always runs to its end.
- `check_connection` and the unbounded scan loop of `monitor_device_availability` are not modelled. Only the loop's first-match selection (`Device.MatchingDevice`) is.
- Home Assistant glue is not part of this model: the coordinator, the setup and unload code, the switch entities, the config flow and the entity metadata. The coordinator callback is modelled only as the `published` log.
- `brushing_time` is an exact rational (`seconds / 60`), not a Python float.
- The device's `ble_device` object is modelled only as its address.
- `_first_message` is never read.
- The old client that `set_ble_device` replaces is not disconnected. The model does not track it.
- A JSON round trip is taken to give back the saved dict, since the values are strings, integers, floats and None. Serialisation errors are the `DumpFailed` outcome.
- Device.Laifen.Connect: returns the number of connect calls as `tries` in addition to the Python result. Python does not return it.
- Device.Laifen.StartNotifications: models the Python return value as `gaveUp` (`True` stands for the `False` it returns). Every other exit returns None.

## Findings

| source | as written | input that shows it | evidently intended | confidence | as-written member | corrected member |
|---|---|---|---|---|---|---|
| custom_components/laifen_ble/sensor.py:121-124 | the status sensor shows "Running" only when the reading's status equals "1", but the decoder stores "Running" or "Idle" | any decodable frame whose byte 23 has low nibble 1: its reading says "Running", the sensor shows "Idle" | show "Running" when the reading says "Running" | high; not executed | Sensor.StatusSensorAlwaysIdle | Sensor.IntendedStatusShown |
| custom_components/laifen_ble/sensor.py:137-149 | the mode sensor maps "0"-"3" to "1"-"4", but the decoder already stores `str(m + 1)`, so one is added twice | a frame with mode nibble 2 and one with mode nibble 3 both show "4" | show the stored mode `str(m + 1)` | high; not executed | Sensor.ModeSensorCollides | Sensor.IntendedModeShown |
