# HTTP to D-Bus badge relay, modelled in Dafny

The relay accepts `POST /:windowID` with a JSON body `{"label": ..., "color": ...}`
and turns each request into one D-Bus signal addressed to a configured
destination, object path, interface and member, whose body is the three
strings `(windowID, label, color)`. It logs one structured entry per send and
answers 200, 400 or 500. The relay holds one session-bus connection, made
lazily by `configError` when the relay is built with `NewDBusHTTPRelay`
unless a bus was injected with a setting.

The model is functional:

- `wrappers.dfy` (`Wrappers`): `Option` and `Result`.
- `text.dfy` (`Text`): Go's `strings.TrimSpace` over the `unicode.IsSpace`
  characters, and the `%d` rendering of an `int`. It also has an inverse
  decimal parser and a split at the last colon, used to state round-trips;
  the Go code contains neither.
- `dbus.dfy` (`DBus`): message type, header fields, typed values,
  `SignatureOf`, and readers that recover a signal's address and string
  arguments from its headers and body. It follows the message format of the
  D-Bus Specification (STRING `s`, OBJECT_PATH `o`, SIGNATURE `g`).
- `relay.dfy` (`RelayService`): the relay record, its settings
  (`RelayLog`, `RelayDestinationBus`, `RelayHost`, `RelayPort`, `RelayDest`,
  `RelayPath`, `RelayInterface`, `RelayMethod`), `configError`,
  `NewDBusHTTPRelay` and `ListenAddr`.
- `handler.dfy` (`Handler`): `resultText`, the message built by
  `raiseDBusSignal`, and `setWindowNotifications`.

The three foreign calls are inputs:

- The JSON decode outcome is `Option<Notification>`. Absent fields are
  already the empty string.
- The error the bus send returns is `Option<string>`.
- The session-bus dial outcome is `Result<Conn, string>`. It is consulted
  only when no connection is held, and the `dialed` flag records whether it
  was.

The handler returns the status, the message and the ordered list of effects
(`SendSignal`, then `LogEntry`). This makes "no send, no log" on a rejection
and "log after send" on acceptance checkable.

Two details of the Go code shape the model:

- A failed send answers `"unable to raise signal:" + error` with no space.
  `fmt.Sprint` inserts a space only between two operands that are both
  non-strings, and the first operand here is a string.
- The Go code does no configuration validation (port range, non-empty
  names), so the model does none either.

## Model

| member | source | states |
|---|---|---|
| Text.TrimLeft | dbus-http.go:83 | The result is the suffix of the input left after dropping leading white space. It is empty or starts with a non-space. |
| Text.TrimRight | dbus-http.go:83 | The result is the prefix left after dropping trailing white space. It is empty or ends with a non-space. |
| Text.TrimSpace | dbus-http.go:83 | The trimmed window ID is no longer than the raw one, and it neither starts nor ends with white space. |
| Text.TrimSpaceOf | dbus-http.go:83 | Trimming is unique: any string with no white space at either end, surrounded by any white space, trims back to exactly itself. |
| Text.TrimSpaceEmptyIff | dbus-http.go:83-84 | The trimmed ID is empty exactly when the raw path segment is all white space, including when it is empty. |
| Text.TrimSpaceIdempotent | dbus-http.go:83 | Trimming an already trimmed ID changes nothing. |
| Text.FormatNat | dbus-http.go:38 | The decimal numeral of a natural number is non-empty and all digits. A leading zero occurs only as the numeral "0" for zero, so the numeral is the shortest one. |
| Text.FormatInt | dbus-http.go:38 | The `%d` rendering of the port is canonical ("0", or digits with no leading zero, with a minus sign only before a non-zero value), reads back as the same integer, and holds no colon; together these fix the string for every integer. |
| Text.SplitJoin | dbus-http.go:38 | Joining a host and a colon-free tail with ":" and splitting at the last colon gives back the host and the tail. |
| DBus.SignatureOf | dbus-http.go:60 | A signature has one type code per value, in order. |
| RelayService.Apply | dbus-http.go:123-153 | Each setting writes its own field with its value and leaves every other field unchanged. |
| RelayService.ApplySettings | dbus-http.go:113-115 | Applying the settings left to right leaves every field with the value of the last setting that writes it, found by scanning the settings backwards, or its initial value when none does. |
| RelayService.UnsetFieldKept | dbus-http.go:113-115 | A field that no setting writes keeps its initial value. |
| RelayService.LastSettingWins | dbus-http.go:113-115 | When several settings write one field, the last of them decides its value. |
| RelayService.ConfigError | dbus-http.go:28-35 | It dials exactly when no connection is held. Success means a connection is held afterwards, and a dial that succeeds stores exactly the dialed handle. A held connection is returned unchanged. A failed dial leaves the relay unchanged and reports "could not fetch dbus SessionBus: " followed by the cause. |
| RelayService.ConfigErrorIdempotent | dbus-http.go:28-31 | After a successful check, a second check returns the same relay and succeeds without dialing. |
| RelayService.NewRelay | dbus-http.go:109-121 | Construction dials exactly when the applied settings leave no connection. A built relay holds the dialed handle if it dialed and the injected one otherwise, and its other fields are those the settings produced. It fails exactly when the dial happened and failed, with the wrapped cause. |
| RelayService.NewRelayKeepsSettings | dbus-http.go:113-120 | On success, every field other than the connection is the one the settings produced. |
| RelayService.NewRelayWithInjectedBus | dbus-http.go:116-121 | An injected connection that no later setting overrides is kept. Construction then succeeds with no dial. |
| RelayService.NewRelayDefaultsToNopLogger | dbus-http.go:110-112 | With no logger setting, the relay logs to the no-op logger. |
| RelayService.NewRelayWithoutBus | dbus-http.go:113-118 | With no bus setting, construction dials once. Success stores the dialed connection; failure gives no relay and the wrapped error. |
| RelayService.ListenAddr | dbus-http.go:37-39 | The listen address splits at its last colon into the host and the port's `%d` numeral, whatever colons the host holds. |
| Handler.ResultText | dbus-http.go:70-76 | A result text reads back as the error it came from: "OK" for no error, "err:" plus the message otherwise. |
| Handler.ResultTextInjective | dbus-http.go:70-76 | Two result texts are equal exactly when their errors are equal. So "OK" never equals an "err:" text. |
| Handler.BuildSignal | dbus-http.go:52-64 | The message is a signal with exactly five headers: interface, member, path, signature and destination. Its signature is "sss". |
| Handler.BuildSignalReadsBack | dbus-http.go:52-64 | Reading the signal back gives the relay's destination, path, interface and member, and the arguments [windowID, label, color]. |
| Handler.SetWindowNotifications | dbus-http.go:78-105 | The status is 200, 400 or 500. It is 400 exactly when nothing was sent or logged. A 200 has an empty message. |
| Handler.BlankWindowIDRejected | dbus-http.go:83-87 | An empty or all-white-space window ID gives 400 "missing window ID", with no send and no log, whatever the body and the bus do. |
| Handler.MalformedBodyRejected | dbus-http.go:89-93 | A non-blank window ID with an undecodable body gives 400 "malformed body", with no send and no log. |
| Handler.AcceptedRequestSendsThenLogs | dbus-http.go:95-97 | An accepted request makes exactly two effects. First, one signal over the relay's connection, addressed from the configuration and carrying the trimmed ID, label and color. Then one log entry with keys windowID, label, color, result, where result is the send's result text. |
| Handler.AcceptedRequestStatus | dbus-http.go:99-104 | A failed send gives 500 "unable to raise signal:" followed by the error. A successful send gives 200 with an empty message. |
| Handler.SendIffAccepted | dbus-http.go:83-95 | A signal is sent exactly when the window ID is not blank and the body decodes. |

## Left out

- `badgerelay-main.go`: flag and environment binding, logger construction, the default configuration values and `http.ListenAndServe`. The model has no decision logic for these. The default values live only there.
- `ServeMux` (dbus-http.go:46-50): httprouter route matching is not modelled. The handler takes the raw `windowID` path segment directly.
- JSON decoding: the decode outcome is an input. The model does not cover case-insensitive key matching, `null` fields, or trailing data after the first value.
- The bus send and the session-bus dial: their outcomes are inputs. Wire encoding, object-path validity checks made by the bus library, and that library's process-wide reuse of one session connection are not modelled.
- `http.Error` details: the trailing newline and content-type headers are not modelled. Only the status and the message are.
- go-kit log formatting and the ignored error returned by `Log`: a log entry is the ordered key/value list handed to the logger.
- RelayService.Setting: only the eight exported setters are modelled. Go's `RelaySetting` (dbus-http.go:107) is an open function type, so a nil setting, which panics at line 114, and a custom setting that writes several fields are not modelled.
- RelayService.Logger: has no nil value. `RelayLog(nil)` would leave the logger nil, and an accepted request would then panic at line 96 after the signal was sent; that panic is not modelled.
- Handler.SetWindowNotifications: requires the relay to hold a connection. In Go a nil connection would make the send panic. `NewRelay` proves that every relay it builds holds one.
- Text.TrimSpace: works on characters, not UTF-8 bytes. Invalid UTF-8 sequences are not modelled.
- Concurrency between request handlers: each request is modelled alone. The handler changes no relay state.
