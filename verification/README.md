# Telemetry collector, DMX controller and solenoid triggers in Dafny

This project models the decision logic of a set of small networked and
hardware-control scripts. It models them with their sockets, USB and GPIO
calls taken out.

- **Telemetry collector, full revision** (`red/servidor_completo_win.py`):
  - the file name derived from a user name;
  - the per-user CSV record whose cell [0,0] holds the reporting IP;
  - newline-or-close framing of the telemetry stream;
  - the peer table keyed by source IP;
  - the discovery responder gated by an optional shared token.
- **Telemetry collector, earlier revision** (`red/servidor_completo.py`):
  - one `recv` per connection, stripped, with an empty-payload guard;
  - the same peer-table upsert;
  - a discovery responder that answers only probes naming the local user.
- **DMX controllers** (`dmx.py`, `dmxWin.py`):
  - a 512-slot buffer with range-checked, clamped writes;
  - OSC addresses ending in `dmxN`;
  - in the Windows variant, per-channel update marks that a batch sender
    clears after a successful send.
- **Solenoid triggers** (`solenoides/solenoides_osc.py`, `solenoides_osc.py`):
  - a rising-edge state machine over the last value of each solenoid;
  - a stateless validator that strikes a known solenoid for a positive
    duration.

Everything is functional. The collectors' state is an immutable `map` of
entries plus a `map` from file names to rows of cells. A DMX buffer is a
`seq<int>` of length 512. Each handler is a transition function, and lemmas
relate sequences of messages.

The outside world enters as parameters:

- the source IP, the local IP, the time stamp `hora` and the local user name;
- the `DISCOVERY_TOKEN` setting;
- whether a USB send succeeded;
- the bytes each `recv` returned, as a sequence of chunks where an empty
  chunk, or the end of the sequence, is the peer closing;
- the two decoders, `bytes.decode` and `json.loads`, as a `Codec` of total
  functions. In the full revision `decode(errors="replace")` always
  succeeds and returns text, and only `loads` returns an `Option`. In the
  earlier revision strict UTF-8 decoding can fail, so both return an
  `Option`.

Files, in dependency order:

- `wrappers.dfy`: `Option`.
- `text.dfy`: `str.strip()` with Python's full `isspace()` set, ASCII
  `lower()`, `split("/")[-1]`, `isdigit()`/`int()` on decimal digits and
  `str()` of a natural number.
- `json.dfy`: JSON values, Python truthiness, `dict.get`.
- `safe_filename.dfy`: `_safe_filename_from_user`.
- `csv_store.dfy`: the row update of `guardar_ip_en_csv`, on rows of cells.
- `framing.dfy`: `recv_json_lines`, as a declarative frame (`FrameOf`) and as
  a chunk-by-chunk method proved equal to it.
- `collector.dfy`: the peer-table entry, the reports the agent sends and the
  discovery reply, which both revisions share.
- `collector_win.dfy` and `collector_early.dfy`: the two collector revisions.
- `osc.dfy`: OSC arguments and the `int(args[0])` / `float(args[0])`
  conversions.
- `dmx.dfy` and `dmx_win.dfy`: the two DMX controllers.
- `gpio.dfy`: strikes (pin HIGH, sleep, pin LOW) as data, and pin tables.
- `solenoid_edge.dfy` and `solenoid_simple.dfy`: the two solenoid handlers.

## Model

| member | source | states |
|---|---|---|
| SafeFilename.SafeFilenameFromUser | red/servidor_completo_win.py:30-38 | The name always ends in ".csv" after a non-empty stem free of `<>:"/\|?*`, newline, CR and tab. A missing, empty, "n/a" or "none" user (any case, once stripped) gives "desconocido.csv". A whitespace-only user gives "usuario.csv". Any other user gives its stripped, substituted form plus ".csv". |
| SafeFilename.Stem | red/servidor_completo_win.py:32-37 | The stem is non-empty and safe in every case, and it is the placeholder, "usuario" or the substituted stripped name by the same three cases. |
| SafeFilename.PlaceholderIsClean | red/servidor_completo_win.py:33-35 | Stripping and substituting "desconocido" leaves it unchanged, so the placeholder branch may return it directly. |
| SafeFilename.ReplaceUnsafeRuns | red/servidor_completo_win.py:35 | The substitution leaves no unsafe character, never lengthens the text, and gives an empty result only for empty text. |
| SafeFilename.ReplaceKeepsSafeText | red/servidor_completo_win.py:35 | Text without unsafe characters passes through unchanged. |
| SafeFilename.ReplaceIdempotent | red/servidor_completo_win.py:35 | Substituting twice is substituting once. |
| SafeFilename.ReplaceMaximalRun | red/servidor_completo_win.py:35 | A maximal run of unsafe characters between safe characters becomes exactly one "_" and splits the result there. |
| SafeFilename.ReplaceConcat | red/servidor_completo_win.py:35 | Substitution distributes over concatenation at a point just after a safe character. |
| CsvStore.SetLeadingCell | red/servidor_completo_win.py:52-56 | Cell [0,0] becomes the IP. A file with no rows becomes one row of one cell, and an empty first row becomes one cell. Every other cell, every other row and every row length is unchanged. |
| CsvStore.LastWriteWins | red/servidor_completo_win.py:56 | Writing IP a then IP b leaves exactly what writing b alone leaves. |
| CsvStore.Idempotent | red/servidor_completo_win.py:56 | Writing the same IP twice is writing it once. |
| CsvStore.FileFor | red/servidor_completo_win.py:46-47 | Which file a report's `usuario` value selects. Falsy values (null, "", 0, false, [], {}) select "desconocido.csv". A non-empty string selects its safe file name. Any other truthy value raises in `.strip()` inside the swallowed try-block, so no file is written. |
| CsvStore.SaveIp | red/servidor_completo_win.py:46-59 | `guardar_ip_en_csv` on the directory. The selected file, created if missing, gets the leading-cell update from its old rows. Every other file is unchanged, and nothing changes when no file is selected. |
| CsvStore.SaveLastWriteWins | red/servidor_completo_win.py:46-59 | Two saves for the same user leave what the second alone leaves. |
| Framing.FirstNewline | red/servidor_completo_win.py:78-79 | The position of the first newline: a newline sits there and none before it. |
| Framing.FrameOf | red/servidor_completo_win.py:65-80 | A line frame exists iff the received bytes hold a newline; its document is newline-free and is followed by a newline in the stream. Otherwise the whole buffer is the document when it is not blank. Nothing is yielded iff there is no newline and the buffer is empty or whitespace. |
| Framing.RecvJsonLines | red/servidor_completo_win.py:65-80 | The chunk-by-chunk loop yields exactly `FrameOf`. It makes at most one `recv` per chunk plus the one that sees the close. When a line is found, the last chunk read is the one that completed the first newline, so no later chunk is read. |
| Framing.FrameIgnoresLaterChunks | red/servidor_completo_win.py:77-80 | Once the delivered bytes contain a newline, anything sent afterwards leaves the frame unchanged. |
| Framing.CloseWithoutNewline | red/servidor_completo_win.py:70-76 | A close before any newline hands the whole buffer to the decoder, or nothing when it is empty or whitespace. |
| Collector.EntryFromInfo | red/servidor_completo_win.py:98-114 | The entry holds `hora` and the six report fields: present keys are copied, and missing ones default to "N/A", null, null, 0, 0 and {}. |
| Collector.EntryReadsOnlyKnownKeys | red/servidor_completo_win.py:99-114 | Reports that agree on the six keys read give the same entry, so `hostname`, `ip_local` and any other key are dropped. |
| Collector.ReportRoundTrip | red/servidor_completo_win.py:99-114 | A complete agent report reaches the entry field for field, with no defaults applied. |
| CollectorWin.DecodeReport | red/servidor_completo_win.py:97-99 | A document yields report fields iff it decodes to a JSON object; anything else (on which `.get` raises) yields nothing. |
| CollectorWin.HandleConnection | red/servidor_completo_win.py:92-134 | Any framing or decoding failure leaves table and files unchanged. A report sets the entry for the source IP and adds that key, leaving other entries alone. The files become exactly what `SaveIp` makes of them for the report's user and the source IP: the source IP lands in cell [0,0] of the user's file, and other files stay as they were. |
| CollectorWin.DistinctSourcesCommute | red/servidor_completo_win.py:106-114 | Reports from two different sources may be handled in either order with the same table. |
| CollectorWin.SameSourceLastWins | red/servidor_completo_win.py:106-114 | A later report from the same source replaces the earlier entry wholly. |
| CollectorWin.ReportReachesCollector | red/servidor_completo_win.py:96-117 | An agent report sent as one line reaches the table unchanged and puts the source IP in the user's CSV file. This holds with or without the newline: one path is the newline, the other the close. |
| CollectorWin.ReplyToProbe | red/servidor_completo_win.py:140-151 | Every reply is {ip: local IP, tcp_port: 5555}. Without a non-empty token every decoded probe is answered. With one, a probe is answered iff it is an object whose "token" equals it. |
| CollectorWin.HandleDatagram | red/servidor_completo_win.py:146-155 | A datagram that does not decode gets no reply; a decoded one gets the probe's answer. |
| CollectorWin.GateIgnoresIdentity | red/servidor_completo_win.py:148-150 | Probes that agree on their token get the same answer, whatever user or other fields they carry. |
| CollectorEarly.FirstReceive | red/servidor_completo.py:9-35 | The handler reads only the first chunk, of at most 4096 bytes. |
| CollectorEarly.Payload | red/servidor_completo.py:35-38 | There is no payload iff the first receive does not decode or decodes to empty or whitespace-only text. Otherwise the payload is exactly the stripped decoded text, so it has no whitespace at either end. |
| CollectorEarly.HandleConnection | red/servidor_completo.py:34-79 | No payload, a JSON failure or a non-object leaves the table unchanged. An object sets the entry for the source IP and leaves other entries alone. |
| CollectorEarly.OnlyFirstReceive | red/servidor_completo.py:35 | Chunks after the first never affect the outcome. |
| CollectorEarly.BlankPayloadIgnored | red/servidor_completo.py:36-38 | An empty or whitespace-only payload leaves the table unchanged. |
| CollectorEarly.PaddingIgnored | red/servidor_completo.py:35-40 | Whitespace around a payload does not change how it is handled. |
| CollectorEarly.ReplyToProbe | red/servidor_completo.py:83-95 | A reply is sent iff the probe is an object whose "usuario" equals the local user, and it carries only the local IP. |
| CollectorEarly.HandleDatagram | red/servidor_completo.py:91-99 | A reply is sent iff the datagram decodes as UTF-8, parses as JSON and names the local user. Everything else is dropped. |
| CollectorEarly.GateIgnoresToken | red/servidor_completo.py:93 | A token in the probe never changes the answer. |
| Text.Strip | red/servidor_completo_win.py:34 | The result is empty iff the text is all whitespace; otherwise it starts and ends with non-whitespace. |
| Text.StripParts | red/servidor_completo_win.py:34 | Stripping removes only whitespace, from the two ends. |
| Text.StripUnique | red/servidor_completo_win.py:34 | Text padded with whitespace, and itself empty or without whitespace at either end, strips to itself. |
| Text.StripIgnoresPadding | red/servidor_completo.py:35 | Padding text with whitespace does not change its stripped form. |
| Text.Lower | red/servidor_completo_win.py:32 | Lower-casing keeps the length and maps each character through ASCII lower-casing. |
| Text.LastSegment | dmx.py:64 | The last "/" segment holds no "/". |
| Text.LastSegmentIsSuffix | dmx.py:64 | The segment is a suffix of the address, preceded by "/" unless it is the whole address. |
| Text.LastSegmentAfterSlash | dmx.py:64 | Whatever precedes the last "/" does not matter. |
| Text.ShowNatRoundTrip | dmx.py:65-66 | `int(str(n)) == n` for decimal digits, and `str(n)` passes `isdigit()`. |
| Osc.Truncate | dmx.py:67 | `int()` of a float truncates toward zero, whatever its sign. |
| Osc.ToInt | dmx.py:67 | `int(args[0])` keeps integers, truncates floats, reads text with `int()`, turns `True`/`False` into 1/0 and rejects any other argument. |
| Osc.ParseInt | dmx.py:67 | `int()` rejects text with no ASCII digit (a sign alone, blanks, words), so the message writes nothing. |
| Osc.ParseShowInt | dmx.py:67 | `int(str(n)) == n` for every integer. |
| Osc.ToReal | solenoides/solenoides_osc.py:54 | `float(args[0])` keeps integers and floats, reads text with `float()`, turns `True`/`False` into 1.0/0.0 and rejects any other argument. |
| Osc.ParseReal | solenoides/solenoides_osc.py:54-57 | `float()` rejects text with no ASCII digit (a sign alone, a lone ".", blanks, words), so the handler drops the message. |
| Osc.ParseRealOfInt | solenoides_osc.py:32 | `float(str(n)) == n` for every integer. |
| Dmx.Clamp | dmx.py:38 | The level is in 0..255. It equals the value when that is in range, 0 below the range and 255 above it. |
| Dmx.Zeros | dmx.py:12 | 512 channels, all at 0. |
| Dmx.SetChannelValue | dmx.py:36-42 | An in-range channel takes the clamped value and no other channel changes. An out-of-range channel leaves the buffer unchanged. Validity is kept. |
| Dmx.ChannelOf | dmx.py:64-66 | An address names a channel iff its last segment is "dmx" followed by one or more digits and nothing else. The channel is then at least -1. |
| Dmx.ChannelOfNonDigits | dmx.py:64-66 | "…/dmx" followed by nothing, or by text that is not all digits ("dmx", "dmx-1", "dmx1a"), names no channel, so the message is dropped. |
| Dmx.ChannelOfDigits | dmx.py:64-66 | "…/dmx" followed by digits names the channel one below the digits' value, whatever precedes the last "/". |
| Dmx.ChannelIgnoresLeadingZeros | dmx.py:66 | Leading zeros do not change the channel: "dmx007" names the same channel as "dmx7". |
| Text.LeadingZeros | dmx.py:66 | Leading zeros do not change the value of a digit string. |
| Dmx.ChannelOfDmxN | dmx.py:64-66 | "…/dmxN" names channel N-1, whatever precedes the last "/". |
| Dmx.ChannelOfOther | dmx.py:65 | A last segment not starting with "dmx" names no channel. |
| Dmx.SendDmx | dmx.py:48-57 | A delivered send or a USB error keeps the buffer. A `ValueError` zeroes it through `reset`. |
| Dmx.Reset | dmx.py:78 | All 512 channels become 0. |
| Dmx.UpdateFromOsc | dmx.py:59-72 | A bad address or an unconvertible or missing argument changes nothing. Otherwise the channel is written and the buffer sent, even when the channel is out of range. Validity is kept. |
| Dmx.OscWritesChannel | dmx.py:64-70 | A delivered message to "…/dmxN" with an integer argument is exactly a write of channel N-1. |
| Dmx.OscOutOfRange | dmx.py:36-42 | "dmx0" and N > 512 change nothing unless the send itself resets the buffer. |
| Dmx.RunKeepsValid | dmx.py:31-78 | Across any sequence of writes, messages and resets the buffer keeps 512 channels, each in 0..255. |
| DmxWin.Init | dmxWin.py:9-10 | The initial controller is valid, all levels are 0 and nothing is marked. |
| DmxWin.SetChannelValue | dmxWin.py:36-39 | An in-range channel takes the clamped value and is marked. No other level or mark changes, and an out-of-range channel changes nothing. |
| DmxWin.UpdateFromOsc | dmxWin.py:52-57 | Address and argument rules as in `dmx.py`. The message only writes and marks; nothing is sent. |
| DmxWin.OscMarksChannel | dmxWin.py:53-57 | A message to "…/dmxN" with an integer argument is exactly a write of channel N-1. |
| DmxWin.BatchStep | dmxWin.py:41-50 | The levels never change. With nothing marked nothing is sent. Otherwise the whole buffer is sent; success clears every mark and failure keeps the controller as it was. |
| DmxWin.FailedFrameResent | dmxWin.py:43-49 | After a failed send the next pass sends the same frame again. |
| DmxWin.CleanMeansSynced | dmxWin.py:43-46 | When the marks are sound and nothing is marked, the device holds the buffer. |
| DmxWin.RunKeepsSync | dmxWin.py:36-57 | Across any sequence of whole messages and whole batch passes, each taken as one step, every level that differs from the device's is marked, so no update is lost. Interleavings inside a batch pass are not covered (see Left out). |
| Gpio.PinOf | solenoides_osc.py:29-30 | A pin is found iff the name is in the table, and the pair is one of the table's items. |
| Gpio.PinOfItem | solenoides_osc.py:11-19 | In a table without repeated names each item's pin is what the lookup finds for its name. |
| SolenoidEdge.TableIsWellFormed | solenoides/solenoides_osc.py:14-23 | Eight names map to eight distinct pins, and each name looks up its own pin. |
| SolenoidEdge.InitialLevels | solenoides/solenoides_osc.py:26 | Every known solenoid, and nothing else, starts at 0. |
| SolenoidEdge.HandleMessage | solenoides/solenoides_osc.py:46-72 | An unknown name or a missing or unreadable value changes nothing. Otherwise the value is recorded. The solenoid strikes its own pin for the value's duration iff the recorded value was exactly 0 and the new one is positive. |
| SolenoidEdge.OtherNamesUntouched | solenoides/solenoides_osc.py:72 | A message leaves every other solenoid's recorded value alone. |
| SolenoidEdge.HeldValueStrikesOnce | solenoides/solenoides_osc.py:59-72 | When messages are handled one after another, two consecutive positive values strike at most once. |
| SolenoidEdge.NegativeDoesNotRearm | solenoides/solenoides_osc.py:59-72 | When messages are handled one after another, a negative value after a positive one does not strike, and neither does the next positive value. |
| SolenoidEdge.ZeroRearms | solenoides/solenoides_osc.py:59-72 | After an exact 0 the next positive value strikes. |
| SolenoidEdge.PositiveRunStrikesOnce | solenoides/solenoides_osc.py:59-72 | When messages are handled one after another, a solenoid at rest that receives a run of positive values strikes once, at the first of them, for that value's duration. |
| SolenoidEdge.HeldPositiveStrikesNone | solenoides/solenoides_osc.py:59-72 | When messages are handled one after another, further positive values never strike while a solenoid holds a positive value. |
| SolenoidSimple.TableIsWellFormed | solenoides_osc.py:11-19 | Seven names map to seven distinct pins, and each name looks up its own pin. |
| SolenoidSimple.HandleMessage | solenoides_osc.py:27-45 | A strike happens iff the name is known and the value reads as a positive number. The strike uses the name's pin for that many seconds. |
| SolenoidSimple.Stateless | solenoides_osc.py:27-45 | The strikes of two batches of messages are those of each batch alone, so nothing carries over between messages. |
| SolenoidSimple.RepeatStrikesAgain | solenoides_osc.py:27-45 | A message that strikes strikes again when repeated. |

## Left out

- Sockets, threads, daemon loops and the accept and receive loops
  themselves. Each handler models one connection or datagram. The full
  collector's accept loop handles connections one at a time, so a
  sequence of calls is faithful.
- `obtener_ip_local`, `datetime.now`, `getpass.getuser` and
  `os.environ`: they are parameters.
- JSON parsing and serialisation, and `bytes.decode`: they are abstract
  functions. The reply is modelled as a record, not as JSON text.
- Console output in every file.
- The CSV byte format and file existence. `csv.reader` and `csv.writer` are
  modelled as rows of cells, so re-quoting and encoding are not covered.
  File read and write errors are swallowed by the source and not modelled.
- CsvStore.SaveIp: files are keyed by their exact name. On a
  case-insensitive Windows file system "Alice.csv" and "alice.csv" are
  the same file, and reserved device names such as "CON.csv" or "NUL.csv"
  are not files at all. The model keeps such names apart and treats every
  name as an ordinary file.
- The datagram size. `recvfrom(1024)` truncates a longer datagram on
  Linux. On Windows it raises instead, the loop catches the error and no
  reply is sent. The model takes each datagram as delivered.
- The agent (`red/muestra_username.py`), the subnet scanner
  (`red/obtiene_usernames.py`) and the interface lister
  (`red/obtiene_subred.py`). They are I/O and library plumbing, and none of
  them is part of this model. `Collector.Report` stands in for the agent's
  payload.
- USB and pyudmx calls, the sleeps, the recursive `retry_connection` and
  `restart_device`, and closing the device. A send is an outcome parameter.
- The Windows batch thread's timing, the races between it and the OSC
  handler, and the thread ending when every reconnect attempt fails.
- DmxWin.RunKeepsSync: holds only for whole messages and whole batch
  passes taken one at a time. The batch thread clears every mark
  (`dmxWin.py:46`) after the send (`dmxWin.py:45`). A `set_channel_value`
  that lands between the two loses its mark, and that level is not re-sent
  until another write marks it. Interleavings inside a pass are not
  modelled.
- SolenoidEdge.HandleMessage: messages are handled one after another.
  `ThreadingOSCUDPServer` (`solenoides/solenoides_osc.py:82`) runs each
  message in its own thread. The level is recorded
  (`solenoides/solenoides_osc.py:72`) only after the strike's sleep
  (`solenoides/solenoides_osc.py:68`), so a positive value that arrives
  during a strike still sees 0 and strikes again. The "strikes once"
  lemmas (HeldValueStrikesOnce, PositiveRunStrikesOnce,
  HeldPositiveStrikesNone, NegativeDoesNotRearm) hold only for sequential
  handling.
- `reset` in `dmxWin.py`, which calls a `send_dmx` method that class does
  not define.
- GPIO, the strike's `time.sleep`, the OSC dispatcher and its address
  patterns, and signal/atexit cleanup. A strike is a value, and the
  threaded OSC server's concurrent handlers are not modelled.
- Osc.ToReal: `float()` of text is decimal digits with an optional sign and
  point. It does not cover exponents, underscores, "nan", "inf" or
  non-ASCII digits, and all such text is rejected. Values are exact reals,
  so rounding to doubles, NaN and infinities are not modelled, nor is
  `float()` of bytes in a blob argument.
- Osc.ToInt: `int()` of text does not accept underscores or non-ASCII
  digits, and bytes in a blob argument are rejected.
- Text.Lower: ASCII only. For the comparison with "n/a" and "none" this
  is exact, since no other character lower-cases to one of those letters
  alone.
- Dmx.ChannelOf: `str.isdigit()` is taken as ASCII digits. Python also
  accepts other Unicode digits, and `int()` then rejects some of them.
- Framing.RecvJsonLines: the end of the chunk sequence always reads as an
  orderly close. A `recv` that raises after some data has arrived
  (`red/servidor_completo_win.py:69`) makes the handler catch the error
  (`red/servidor_completo_win.py:133`) and write nothing. That case cannot
  be expressed, and the model would hand the partial data to the decoder.
- The framing in the full collector: for the close path the code differs
  from a plain reading of its documentation. Zero bytes, or only
  whitespace, before the close raise an error and the connection is
  dropped. Only non-blank content is handed to the decoder. The model
  follows the code.
