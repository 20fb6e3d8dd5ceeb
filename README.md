# GameSword Bluetooth pairing core, in Dafny

This project models the Bluetooth pairing logic of the GameSword firmware
(an ESP32 "sword" that looks for a peer sword over BLE and reads the peer's
MAC address). The model covers the global state record `bt`, the
client record `btClient`, the server and scan callbacks that write them,
`setup`, which initialises them, the `loop` step function, and the
`%02X:` formatting of the peer's MAC address into `server_mac_address`.

Every call into the BLE library is replaced by its result: `millis()` is a
`uint32` input, `isConnected()`, `connect()` are booleans,
`getService()`/`getCharacteristic()` return a `Pointer` that may be `Null`,
and `readValue()` is a byte sequence. Each callback is an atomic step on
the shared records.

Modules, one per concern:

- `Wrappers` (wrappers.dfy): `Option`.
- `StdInt` (stdint.dfy): `uint8`, `uint16`, `uint32`, and the wrap-around
  subtraction `Sub32` used for `millis() - start`.
- `MacText` (mac_text.dfy): the `%02X:%02X:%02X:%02X:%02X:%02X` formatter
  `FormatMac`, a strict parser `ParseMac` as its partner, and proofs that
  the two are inverse.
- `MainH` (main_h.dfy): the `BTState` and `BTClient` records as classes,
  the UUID constants, the callback classes, and the pure functions
  `AfterConnect`, `AfterDisconnect` and `AfterResult` that the callbacks
  are proved to implement.
- `MainCpp` (main_cpp.dfy): the globals as one `Program` object with
  `Setup` and `Loop`. `LoopStep` is the value of the globals after one
  `loop`, and `Loop` is proved to produce it. An event trace model
  (`Event`, `Apply`, `Run`) supports lemmas over any interleaving of
  callbacks and `loop` calls.

The model follows the code as written, quirks included:

- `onResult` sets `is_bt_connected` when it finds the server. After that,
  the connecting branch of `loop` never runs, so `server_mac_address` is
  never filled, whatever callbacks and `loop` calls follow
  (`MatchSkipsAddressExchange`, `NotSearchingKeepsAddress`).
- `loop` connects only when `pBLEClient->isConnected()` already reports a
  connection.
- Any disconnect sets `is_error`, and nothing ever clears it
  (`RunErrorFlag`). Once it is set, `loop` does nothing
  (`LoopsIdleAfterError`).

The server and the scanner run at once. A failed attempt is retried only
by the next `loop` call. The length of the characteristic's value is
never checked.

## Model

| member | source | states |
|---|---|---|
| StdInt.Sub32 | src/main.cpp:79 | `millis() - start` in uint32: the true difference when `now >= start`, else the difference plus 2^32 |
| StdInt.Sub32MeasuresElapsed | src/main.cpp:79 | for two readings of a wrapping millisecond counter taken less than 2^32 ms apart, the unsigned difference is the real elapsed time, even across a wrap |
| MacText.HexDigit | src/main.cpp:102 | `%X` prints a nibble as an upper-case hexadecimal digit: '0'..'9' below 10, 'A'..'F' from 10 |
| MacText.DigitValue | src/main.cpp:102 | inverse of HexDigit: a character has a value exactly when it is an upper-case hex digit, and HexDigit prints that value back as the same character |
| MacText.HexByte | src/main.cpp:102 | `%02X` of a byte is two upper-case hex digits, the high nibble then the low nibble |
| MacText.ParseHexByte | src/main.cpp:102 | two characters parse as a byte exactly when both are upper-case hex digits |
| MacText.HexByteRoundTrip | src/main.cpp:102 | parsing the two digits of `%02X` gives back the byte |
| MacText.ParseHexByteCanonical | src/main.cpp:102 | two digits that parse are exactly the digits `%02X` prints for the parsed byte |
| MacText.HexColonJoin | src/main.cpp:102 | n bytes joined as `%02X` groups with ':' take 3n-1 characters |
| MacText.JoinGroupAt | src/main.cpp:102 | byte i is printed at positions 3i and 3i+1 of the joined text |
| MacText.JoinSeparatorAt | src/main.cpp:102 | a ':' follows every group but the last, at position 3i+2 |
| MacText.JoinThenParse | src/main.cpp:102 | parsing the joined text of any non-empty byte sequence gives back that sequence |
| MacText.ParseThenJoin | src/main.cpp:102 | any text that parses is exactly the joined text of the bytes it parses to |
| MacText.FormatMac | src/main.cpp:101-102 | the formatted address of the first six bytes read is 17 characters long |
| MacText.FormatMacLayout | src/main.cpp:102 | the formatted address has ':' at positions 2, 5, 8, 11 and 14 only, an upper-case hex digit everywhere else, and byte i as the digits at 3i and 3i+1 |
| MacText.ParseMacLength | src/main.cpp:102 | a parsed address always has six bytes |
| MacText.FormatParseInverse | src/main.cpp:102 | for six bytes `raw`, a text parses to `raw` exactly when it is the formatted address of `raw` |
| MacText.FormatMacInjective | src/main.cpp:102 | two byte sequences that format the same agree on their first six bytes |
| MacText.FormatMacExample | src/main.cpp:102 | the bytes AA BB CC DD EE FF format as "AA:BB:CC:DD:EE:FF" |
| MainH.BTState.constructor | include/main.h:38-52 | the global record starts zeroed, with a 6-byte `mac_address` and an 18-character `server_mac_address` |
| MainH.BTClient.constructor | include/main.h:21-27 | the client record starts with null remote pointers and a default advertised device |
| MainH.AfterConnect | include/main.h:55-56 | after `onConnect`, `is_bt_connected` is true and every other field is unchanged |
| MainH.AfterDisconnect | include/main.h:57-58 | after `onDisconnect`, `is_bt_connected` is false, `is_error` is true, and every other field is unchanged |
| MainH.AfterResult | include/main.h:67-76 | a device whose service UUID is UUID_SERVICE becomes `btClient.advertisedDevice` and sets `is_bt_connected`, and nothing else changes; a device with no service UUID or another UUID changes nothing |
| MainH.CallbacksKeepError | include/main.h:54-77 | no callback clears `is_error`; only `onDisconnect` sets it |
| MainH.ServerMacAddressFits | include/main.h:44 | the formatted address of any six bytes, plus its terminator, exactly fills the 18-character `server_mac_address` |
| MainH.BluetoothServerCallbacks.OnConnect | include/main.h:55-56 | writes only `is_bt_connected` and leaves `bt` as AfterConnect gives it |
| MainH.BluetoothServerCallbacks.OnDisconnect | include/main.h:57-58 | writes only `is_bt_connected` and `is_error` and leaves `bt` as AfterDisconnect gives it |
| MainH.BluetoothClientCallbacks.OnResult | include/main.h:67-76 | writes only `is_bt_connected` and `btClient.advertisedDevice` and leaves both records as AfterResult gives them |
| MainCpp.ServerMacText | src/main.cpp:101-102 | what `sprintf` leaves in `server_mac_address`: 18 characters, NUL at index 17, and the first 17 parse back to the first six bytes read |
| MainCpp.Program.Setup | src/main.cpp:14-61 | all three flags false, `delay` 0, both address arrays all zero, no remote service or characteristic, a default advertised device, and `start` the value `millis()` returns at the end of `setup` |
| MainCpp.Program.Loop | src/main.cpp:75-109 | one call of `loop` changes the globals exactly as LoopStep says, and writes nothing else |
| MainCpp.LoopIdleOnError | src/main.cpp:77 | when `is_error` is set, `loop` changes nothing |
| MainCpp.LoopIdleWhenConnected | src/main.cpp:106-108 | when `is_bt_connected` is set, `loop` changes nothing; it only prints |
| MainCpp.LoopWaitsForScan | src/main.cpp:79-81 | unless the client is connected and `millis() - start >= 5000` in uint32 arithmetic, `loop` returns without a change |
| MainCpp.LoopFailureKeepsState | src/main.cpp:86-99 | when connect, service lookup or characteristic lookup fails, `bt` is left as it was: not connected, `server_mac_address` untouched; `start` and the advertised device do not change |
| MainCpp.LoopSuccessStoresAddress | src/main.cpp:90-104 | on success `is_bt_connected` becomes true and `server_mac_address` holds the formatted first six bytes and a NUL, which parse back to those bytes; no other field of `bt` changes, and the client records the service and characteristic found |
| MainCpp.RunErrorFlag | include/main.h:57-58 | after any sequence of callbacks and `loop` calls, `is_error` is set exactly when it was set before or a disconnect occurred |
| MainCpp.LoopsIdleAfterError | src/main.cpp:77 | once `is_error` is set, no sequence of `loop` calls changes anything |
| MainCpp.NotSearchingKeepsAddress | src/main.cpp:77 | once `bt` is connected or in error, no sequence of callbacks and `loop` calls brings `loop` back to its searching branch or changes `server_mac_address` |
| MainCpp.MatchSkipsAddressExchange | include/main.h:69-74 | after `onResult` finds the server, no sequence of `loop` calls changes anything, so `server_mac_address` is never filled |
| MainCpp.ExchangeExample | src/main.cpp:75-104 | after `setup` at 1000 ms, a `loop` at 7000 ms in which every radio call succeeds and AA BB CC DD EE FF is read leaves `bt` connected with "AA:BB:CC:DD:EE:FF" in `server_mac_address` |
| MainCpp.WrappedClockEndsScan | src/main.cpp:79 | a scan started 4096 ms before the counter wraps is over 904 ms after the wrap, although `millis()` then reads less than `start` |

## Left out

- Serial console output (`Serial.begin`, `println`, `printf`). It is I/O only and changes no state.
- BLE stack setup and control: `BLEDevice::init`, `createServer`,
  `createService`, `createCharacteristic`, advertising, scan settings, and
  the scan's `start` and `stop`. These are library calls. Their results
  enter the model only as the inputs of `Loop`.
- The `pBLEScan`, `pBLEClient` and `btServer` handles. They are library
  objects that the modelled logic only calls through.
- ESP-NOW and WiFi. The `is_en_connected` flag is kept in the state and
  initialised by `Setup`, but nothing else reads or writes it.
- Concurrency of callback delivery. Each callback is one atomic step on the shared records.
- The contents of `BLEAdvertisedDevice`. Only "has a service UUID" and the UUID's text are kept.
- `readValue()` returning fewer than six bytes. The source then reads past
  the end of the buffer, which is undefined behaviour. `Loop` requires at
  least six bytes whenever the read is reached.
- The lifetime of the value read. `readValue()` returns a temporary
  string, and `rawData` points into it after that temporary is destroyed.
  The `sprintf` on src/main.cpp:102 therefore reads freed storage, which is
  undefined behaviour even when six or more bytes were read. The model
  takes the six bytes formatted to be the first six bytes read.
- The second `getService` call (src/main.cpp:90-92). Its result
  immediately overwrites the first one, so both calls are modelled as one
  input.
- The planning comment at src/main.cpp:64-73. It is not code.
