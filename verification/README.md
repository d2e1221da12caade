# Aperture packet capture: the bookkeeping core in Dafny

Aperture is a packet analyser. A C++ engine lists the network devices
through pcap and captures frames into a queue. A Go front end does four
things:

- it decodes the device list;
- it asks the user which device to open;
- it starts the engine and polls the queue;
- it prints or forwards a one-line summary per frame, either to the
  terminal or to a terminal dashboard.

This project models the sequential logic around the engine and proves
what each part promises:

- **DeviceJson** (`device_json.dfy`) covers `escape_json` and
  `get_all_devices_as_json`. The pcap device list is the input
  `Option<seq<PcapDevice>>`, where `None` means the enumeration failed. A
  reader for exactly this JSON format is the escaper's inverse: every
  enumerated device is read back, in order, when no name or description
  holds a raw control character below U+0020. Otherwise the read fails,
  as Go's decoder does.
- **CaptureEngine** (`engine.dfy`) is the engine's state: the
  `is_capturing` flag and the FIFO of `PacketData` frames. Each frame
  carries an allocation number, so "handed out", "freed" and "freed
  twice" become observable.
  - The transitions are `start_capture_session`, `stop_capture`,
    `packet_handler`, `get_next_packet`, `free_packet` and the
    open-failure branch of `capture_worker`. Each one is a single atomic
    step.
  - An ownership invariant (`Valid`) says that every allocation is in
    exactly one place: queued, held by the consumer, or released.
- **PacketSummary** (`summary.dfy`) covers `parsePacket`. The packet
  decoder is replaced by a `Layers` record: an optional IPv4 layer and
  optional TCP and UDP port pairs. The time of day is a `Clock` parameter.
- **CaptureClient** (`client.dfy`) covers the Go wrapper. It models the
  `GetDevices` checks, the `StartCapture` result check, and a finite
  prefix of the `PollForPackets` loop. Each iteration is a `Pass`: the
  frames the capture thread queues since the previous poll, then the poll
  at a clock reading. Its output is a trace of `Event`s (`trace.dfy`): a
  line sent, a frame freed, a sleep, or a stop.
- **DeviceSelection** (`selection.dfy`) models the input check shared by
  `PromptForDeviceSelection` and `promptForDeviceSelection`. It uses Go's
  `strings.TrimSpace` and the 64-bit `strconv.Atoi`.
- **MainProgram** (`main_program.dfy`) covers the stand-alone `main`:
  - start-up, which lists the devices, prompts, and starts the capture;
  - the poll loop, which prints and frees each frame and sleeps on an
    empty poll;
  - stopping the engine once after the loop;
  - `parseAndPrintPacket`.
- **Dashboard** (`dashboard.dfy`) covers the terminal dashboard's
  `Update` state machine and its invariant `tcp + udp + other ==
  packetCount`. It also covers the data `View` shows: the not-ready
  screen and the B/KB/MB unit choice.

`text.dfy` holds the decimal and fixed-width number formatting, `Join`
and the prefix tests. `wrappers.dfy` holds `Option`, `Result` and
`Outcome`.

## Model

| member | source | states |
|---|---|---|
| DeviceJson.EscapeChar | internal/capture/capture.cpp:45-54 | each of `"`, `\`, backspace, form feed, newline, carriage return and tab becomes a backslash and a letter that `UnescapeCode` maps back to it; every other character is copied unchanged |
| DeviceJson.UnescapeCode | internal/capture/capture.cpp:46-52 | the escape letters are exactly the seven the escaper writes, and each decodes to the character that produces it |
| DeviceJson.EscapeJsonSize | internal/capture/capture.cpp:42-58 | the output is longer than the input by the number of the seven special characters; a text without them is returned unchanged |
| DeviceJson.EscapeJsonAppend | internal/capture/capture.cpp:44-56 | escaping works character by character, so it distributes over concatenation |
| DeviceJson.ControlCharacterPassesThrough | internal/capture/capture.cpp:53 | a control character below U+0020 other than the seven is written raw, not as a `\u` escape, so the output is then not valid JSON |
| DeviceJson.ReadEscaped | internal/capture/capture.cpp:42-58 | an escaped text followed by a closing quote reads back as the original text and the remaining input exactly when the text holds no raw control character; otherwise the read fails |
| DeviceJson.UnescapeEscape | internal/capture/capture.cpp:42-58 | unescaping inverts `escape_json` on every text without a raw control character, and fails on every text with one |
| DeviceJson.EntriesAreJoined | internal/capture/capture.cpp:74-85 | the loop writes the objects in enumeration order with exactly one comma between neighbours and none before the first or after the last |
| DeviceJson.DevicesJsonShape | internal/capture/capture.cpp:65-86 | the output is exactly `[]` when enumeration fails or finds no device; otherwise it is `[`, the comma-joined objects and `]` |
| DeviceJson.ReadDeviceObject | internal/capture/capture.cpp:80-84 | one serialised object reads back as the device's name and its description, a NULL description reading as the empty text, exactly when neither holds a raw control character; otherwise the read fails |
| DeviceJson.ReadJoinedObjects | internal/capture/capture.cpp:75-86 | the comma-joined objects and the closing bracket read back as all devices, in order, exactly when no device holds a raw control character; otherwise the read fails |
| DeviceJson.ReadDevicesJson | internal/capture/capture.cpp:60-93 | reading the serialised list yields no device when enumeration fails; otherwise it yields every enumerated device in order when none holds a raw control character, and fails when one does |
| DeviceJson.ReadString | internal/capture/capture.go:38-40 | a string read succeeds only on text free of raw control characters, which JSON forbids inside strings |
| DeviceJson.ExpectLiteral | internal/capture/capture.cpp:80-84 | a literal piece of the format is consumed exactly |
| CaptureEngine.InitialValid | internal/capture/capture.cpp:102-135 | the start state, with nothing allocated, satisfies the ownership invariant |
| CaptureEngine.StartCaptureSession | internal/capture/capture.cpp:157-172 | returns -1 exactly when the name is NULL or a session is active, and then changes nothing; otherwise it sets capturing, keeps the queue and returns 0 |
| CaptureEngine.CaptureWorkerOpenFailed | internal/capture/capture.cpp:137-145 | a device that cannot be opened clears the capturing flag and nothing else |
| CaptureEngine.PacketHandler | internal/capture/capture.cpp:102-116 | ignored when not capturing; otherwise one frame with a fresh allocation, the header's lengths and time, and exactly `caplen` copied bytes is appended at the back |
| CaptureEngine.GetNextPacket | internal/capture/capture.cpp:119-127 | NULL with nothing changed exactly when the queue is empty; otherwise the oldest frame is removed and handed to the consumer, which now owns it |
| CaptureEngine.FreePacket | internal/capture/capture.cpp:130-135 | NULL is ignored; otherwise only the frame's allocation is released |
| CaptureEngine.PacketHandlerKeepsReleased | internal/capture/capture.cpp:102-116 | the callback never frees anything |
| CaptureEngine.GetNextPacketKeepsReleased | internal/capture/capture.cpp:119-127 | dequeuing never frees anything |
| CaptureEngine.FreePacketReleases | internal/capture/capture.cpp:130-135 | freeing an owned frame releases exactly its allocation |
| CaptureEngine.StopCapture | internal/capture/capture.cpp:174-184 | the capturing flag is always false afterwards, and the queue and allocations are untouched |
| CaptureEngine.StopCaptureIdempotent | internal/capture/capture.cpp:174-177 | stopping twice is stopping once, and stopping a stopped engine changes nothing |
| CaptureEngine.Capture | internal/capture/capture.cpp:102-116 | running the callback over a run of arrivals keeps the flag and the consumer's frames |
| CaptureEngine.CaptureAppends | internal/capture/capture.cpp:105-115 | while capturing, every arrival is queued behind the old queue, in arrival order, with consecutive allocation numbers |
| CaptureEngine.CaptureIgnoredWhenStopped | internal/capture/capture.cpp:103 | when not capturing, every arrival is dropped |
| CaptureEngine.CaptureQueues | internal/capture/capture.cpp:102-116 | a run of the callback queues, behind the old queue, exactly the frames built from its arrivals with consecutive numbers, or nothing when not capturing |
| CaptureEngine.FramesOfAppend | internal/capture/capture.cpp:105-115 | the frames of two runs of arrivals are those of the first run, then those of the second numbered on |
| CaptureClient.GetDevices | internal/capture/capture.go:37-45 | fails with the parse error when decoding fails, with "0 devices" when the list is empty, and otherwise succeeds with the decoded, non-empty list |
| CaptureClient.DecodeDeviceJson | internal/capture/capture.go:38-41 | every decoded device's name and description is free of raw control characters |
| CaptureClient.GetDevicesFromEnumeration | internal/capture/capture.go:32-46 | over the engine's JSON, the list is obtained exactly when enumeration found a device and no name or description holds a raw control character, and it is every device in order; "0 devices" exactly when enumeration failed or found none; the parse error exactly when a device holds a raw control character |
| CaptureClient.ControlCharacterIsParseError | internal/capture/capture.go:38-41 | a device named `a`, U+0001, `b` makes the device list a parse error, not "0 devices" |
| CaptureClient.CStringOf | internal/capture/capture.go:50 | the C copy of a name is a prefix of it, and it is the whole name when there is no NUL |
| CaptureClient.CheckStart | internal/capture/capture.go:53-57 | an error exactly when the engine's result is nonzero |
| CaptureClient.StartCapture | internal/capture/capture.go:49-58 | fails, changing nothing, exactly when a session is active; otherwise capturing is set |
| CaptureClient.PollOnce | internal/capture/capture.go:67-77 | an empty poll sends and frees nothing; otherwise the oldest frame's summary is sent and that frame is freed; every iteration sleeps once |
| CaptureClient.PollOnceKeepsOwnership | internal/capture/capture.go:68-74 | an iteration keeps the ownership invariant and frees what it took |
| CaptureClient.PollOnceSendsThenFrees | internal/capture/capture.go:72-74 | within an iteration, the frame is freed right after its summary is sent |
| CaptureClient.PollForPackets | internal/capture/capture.go:66-78 | the loop never changes the capturing flag; what it sends and frees is stated by `PollDelivers` and the lemmas after it |
| CaptureClient.PollDelivers | internal/capture/capture.go:66-78 | against a schedule that only counts frames (a poll finds one exactly when frames are waiting), the loop sends the summaries and frees the ids of the front of the offered frames, one per finding poll, and leaves the rest queued |
| CaptureClient.PollKeepsOwnership | internal/capture/capture.go:66-78 | the loop, with the callback queuing frames between polls, keeps the ownership invariant and hands back every frame it takes |
| CaptureClient.PollSendsInOrder | internal/capture/capture.go:66-78 | with frames arriving between polls, one summary is sent per poll that finds a frame; the i-th summary is that of the i-th frame in allocation order (those queued before, then one per captured arrival), read at that poll's clock; none is dropped or repeated |
| CaptureClient.PollFreesInOrder | internal/capture/capture.go:68-74 | the frames freed are the frames whose summaries were sent, in the same order; the frames not taken stay queued in order; every captured arrival got an allocation number |
| CaptureClient.PollSleepsEachIteration | internal/capture/capture.go:76 | every iteration sleeps once, whether or not it found a frame, and the loop never stops the engine |
| CaptureClient.PollSendsThenFrees | internal/capture/capture.go:72-74 | every send is directly followed by a free and every free directly preceded by a send; which frame each pair concerns is stated by `PollSendsInOrder` and `PollFreesInOrder` |
| CaptureClient.FreedOnce | internal/capture/capture.go:74 | the ids freed strictly increase, so no frame is freed twice |
| CaptureClient.SupplyIncreases | internal/capture/capture.cpp:105-115 | the frames queued before the loop and those the callback queues during it carry strictly increasing allocation numbers |
| CaptureClient.CaptureValid | internal/capture/capture.cpp:102-116 | capturing keeps the ownership invariant |
| PacketSummary.FormatClockShape | internal/capture/capture.go:83 | the time is fifteen characters: two-digit hours, minutes and seconds, then six digits of microseconds, separated by `:`, `:` and `.` |
| PacketSummary.ClockReadsBack | internal/capture/capture.go:83 | each field of the formatted time reads back as the clock's value |
| PacketSummary.AddressTextStartsWithDigit | internal/capture/capture.go:92 | an address prints as dotted decimals of at least seven characters, starting with a digit |
| PacketSummary.PortTextShape | internal/capture/capture.go:98-101 | a port prints as its number, followed by the service name only when the decoder knows one |
| PacketSummary.Summarize | internal/capture/capture.go:86-105 | TCP wins over UDP; neither layer means no transport; the addresses, the time and `len(data)` are carried over |
| PacketSummary.AddressFieldMarksNonIp | internal/capture/capture.go:90-95 | the address field starts with ` Non-IP Packet |` exactly when there is no IPv4 layer |
| PacketSummary.TransportFieldMarks | internal/capture/capture.go:96-104 | the field starts with ` TCP | `, ` UDP | ` or ` Non-TCP/UDP |` exactly for a TCP, a UDP, or neither transport |
| PacketSummary.ParsePacketRendersSummary | internal/capture/capture.go:81-107 | the line built piece by piece is the rendering of the structured summary |
| PacketSummary.SummaryLineLayout | internal/capture/capture.go:84-105 | the line starts with the time and ` |` and ends with ` Len: ` and the frame length; it shows the Non-IP marker exactly without IPv4, and the TCP marker exactly with TCP, the UDP marker exactly with UDP but not TCP, and the Non-TCP/UDP marker exactly with neither |
| PacketSummary.ToPacketInfo | internal/tui/tui.go:78-90 | the dashboard record's protocol is "TCP" exactly for TCP and "UDP" exactly for UDP without TCP, its length is the byte count, and its summary is the summary line |
| Trace.EmittedAppend | internal/capture/capture.go:73 | the lines sent over a concatenated run are those of the first part, then the second |
| Trace.FreedAppend | internal/capture/capture.go:74 | the frames freed over a concatenated run are those of the first part, then the second |
| Trace.CountsAppend | internal/capture/capture.go:76 | the sleeps and stops of a concatenated run add up |
| Trace.EmitThenFreeAppend | internal/capture/capture.go:72-74 | send-then-free discipline is kept when runs are concatenated |
| DeviceSelection.TrimLeftSpec | internal/tui/tui.go:207 | TrimLeft drops a white-space prefix and no more |
| DeviceSelection.TrimRightSpec | internal/tui/tui.go:207 | TrimRight drops a white-space suffix and no more |
| DeviceSelection.TrimSpaceSpec | internal/tui/tui.go:207 | TrimSpace keeps the infix between a white-space prefix and suffix, with no white space at either end |
| DeviceSelection.TrimSpacePadded | internal/tui/tui.go:207 | trimming a text padded with white space returns exactly the text |
| DeviceSelection.AllSpaceTrimmed | internal/tui/tui.go:207 | a text of white space only trims to nothing |
| DeviceSelection.Atoi | internal/tui/tui.go:209 | a successful parse is a 64-bit value from a non-empty text |
| DeviceSelection.AtoiDecimal | internal/tui/tui.go:209 | the decimal spelling of every number in the 64-bit range parses back to that number |
| DeviceSelection.AtoiSigned | internal/tui/tui.go:209 | a leading `+` or `-` is accepted and gives the number or its negation |
| DeviceSelection.AtoiRejectsNonDigit | internal/tui/tui.go:209 | a non-digit after the first character makes the parse fail |
| DeviceSelection.SelectDevice | internal/tui/tui.go:207-212 | a line is accepted exactly when its trimmed text parses as an integer from 1 to the number of devices, and then the device at that position minus one is returned |
| DeviceSelection.SelectsNumberedDevice | main.go:179-184 | the number k, with any white space around it, selects the k-th device |
| DeviceSelection.SignedSelection | main.go:181-182 | `+k` selects the same device as `k`, and `-k` selects none |
| DeviceSelection.RejectsBlankLine | main.go:178-182 | a blank line is rejected |
| DeviceSelection.NoDeviceSelectable | internal/tui/tui.go:210 | with no devices, every line is rejected |
| DeviceSelection.Prompt | internal/tui/tui.go:203-214 | the prompt returns the first acceptable line's device and its position; it keeps prompting exactly when no line read is acceptable |
| MainProgram.PrintedLineIsSummary | main.go:112-143 | the printed line equals the channel summary, with the same classification and precedence and `Len` = `len(data)` |
| MainProgram.PrintedLineLayout | main.go:121-141 | the printed line starts with the time and ends with the length, and shows each marker exactly in its case |
| MainProgram.StartUp | main.go:40-58 | the device list fails exactly when enumeration found nothing or a device holds a raw control character, and the "0 devices" error is exactly the former; prompting continues exactly while no line is acceptable; starting fails exactly when a session is active; a started device is one of the listed ones |
| MainProgram.CountsUpAppend | main.go:76-89 | ids counting up from a start stay counting up when continued |
| MainProgram.CaptureKeepsNumbered | internal/capture/capture.cpp:105-115 | the callback keeps the queue numbered consecutively |
| MainProgram.MainPoll | main.go:76-93 | a poll either prints and frees one frame or sleeps, never both, and never stops |
| MainProgram.MainPollKeeps | main.go:76-89 | a poll keeps the ownership invariant and the numbering, and frees what it took |
| MainProgram.MainPollFrees | main.go:76-89 | a poll frees the oldest queued frame, if there is one, right after printing it |
| MainProgram.MainPollTrace | main.go:76-93 | one poll's trace prints and frees the next frame in allocation order, or sleeps |
| MainProgram.TraceStep | main.go:68-95 | the loop's trace invariant extends over one more pass |
| MainProgram.MainPass | main.go:69-94 | one pass of main's loop leaves the engine as one iteration of `PollForPackets` over the same arrivals and clock would, and prints and frees the same |
| MainProgram.MatchesGoAtEnd | main.go:68-95 | after every pass, main's loop has printed and freed exactly what `PollForPackets` sends and frees, and the engines agree |
| MainProgram.LoopStarts | main.go:68 | the loop invariant holds before the first pass |
| MainProgram.LoopStep | main.go:69-94 | one pass (callback, then poll) keeps the loop invariant |
| MainProgram.LoopStops | main.go:104-106 | stopping adds exactly one stop and a final sleep, and keeps send-then-free |
| MainProgram.PollUntilStopped | main.go:68-106 | after the loop and the stop, the engine is not capturing, the ownership invariant holds and the consumer holds what it held before the loop; the engine was stopped exactly once, then the program slept; each pass freed a frame or slept; frames were freed in allocation order, once each; the k-th printed line is the printed form of the frame numbered `issued + k`, read at the clock of the k-th pass that found a frame; the frames not printed are still queued |
| MainProgram.MainLoop | main.go:68-95 | the loop keeps the invariant over every pass and ends agreeing with `PollForPackets` |
| MainProgram.MainLoopPrints | main.go:76-89 | the lines main prints are, in order, the printed forms of the captured frames, one per pass that found a frame |
| MainProgram.GoLoopPrints | internal/capture/capture.go:66-78 | from an empty queue, the summaries the Go loop sends are the printed forms of the captured frames in arrival order, and the rest stay queued |
| Dashboard.StartInv | internal/tui/tui.go:47-51 | the start model is not ready and satisfies the counter invariant |
| Dashboard.Tally | internal/tui/tui.go:79-88 | the packet count grows by one, the bytes by the length, and exactly one protocol counter by one |
| Dashboard.Update | internal/tui/tui.go:66-115 | `q` or `ctrl+c` quits with the model unchanged; a packet updates the counters, appends its summary to the log and waits for the next; the first resize sets ready with height minus 6, later ones only resize; the invariant `tcp + udp + other == packetCount`, with as many log entries as packets, is preserved |
| Dashboard.CountersNeverDecrease | internal/tui/tui.go:78-90 | no counter decreases, and earlier log entries are kept |
| Dashboard.LogGrowsByOneLine | internal/tui/tui.go:90-91 | the viewport text grows by a line break and the new summary |
| Dashboard.RunLogs | internal/tui/tui.go:78-93 | over a run, the log is the summaries of the packets delivered before a quit key, in order, and the count is their number |
| Dashboard.RunTallies | internal/tui/tui.go:79-88 | over a run, the byte total and the TCP and UDP counters are those of the delivered packets |
| Dashboard.RunQuitsOnQuitKey | internal/tui/tui.go:73-77 | a run ends on Quit exactly when a quit key is among its messages |
| Dashboard.Run | internal/tui/tui.go:66-115 | a run of messages keeps the counter invariant, never loses readiness, and keeps every earlier log entry at the front of the log |
| Dashboard.ScaleBytes | internal/tui/tui.go:134-143 | the unit is B up to 1024, KB up to 1048576, MB above, and the scaled value times the unit is the total |
| Dashboard.Rate | internal/tui/tui.go:128-132 | the rate times the elapsed time is the packet count, and zero before time passes |
| Dashboard.View | internal/tui/tui.go:117-161 | the not-ready screen exactly when not ready; otherwise the counters as they are, the total in its unit, and a packet panel narrowed by the stats panel |
| Dashboard.EarlyPacketsHiddenUntilNextPacket | internal/tui/tui.go:78-105 | a packet before the first resize is counted and logged, but the viewport that resize creates shows the waiting text |
| Text.DecimalString | main.go:141 | the decimal spelling is non-empty, all digits, with no leading zero |
| Text.DigitsValueOfDecimal | main.go:141 | the decimal spelling reads back as the number |
| Text.FixedDigitsValue | internal/capture/capture.go:83 | fixed-width zero-padded digits read back as the number |
| Text.JoinAppend | internal/tui/tui.go:91 | joining one more item appends the separator and the item |

## Left out

- The pcap and Npcap calls are not modelled. Their outcomes are inputs: the
  device list (`Option<seq<PcapDevice>>`), whether the device opens, and
  the callback's header and bytes.
- Threads, the mutex, the atomic flag, goroutines and channel blocking are
  not modelled. Each engine call is one atomic step, and the channel is a
  sequence of sent lines.
- `pcap_breakloop` and the capture thread's exit after the loop are not
  modelled. `StopCapture` only clears the flag.
- gopacket's decoding is a `decode` function parameter that returns which
  layers a frame holds.
- Service names of ports come from gopacket's tables, so they are data in
  `Port`.
- Go's `encoding/json` decoder is replaced by a reader for exactly the
  format the engine writes. Like Go's, it rejects a raw control character
  (below U+0020) inside a string, which the escaper lets through. Other
  JSON (white space, `\u` escapes, other fields) is not modelled.
- `time.Now` is a `Clock` parameter, and `time.Since` is an
  elapsed-seconds parameter. `time.Sleep` is a `Sleep` event.
- Stdin and stdout are not modelled. The prompt's lines are a sequence
  parameter. Printing is not modelled, and neither is the new
  `bufio.Reader` per prompt.
- The infinite loops (`PollForPackets`, main's poll loop, the prompt) are
  modelled as finite prefixes. A prompt that never gets an acceptable line
  is `StillPrompting`.
- The stop signal's goroutine is not modelled. The loop runs over the
  passes before the signal is seen. The capture thread's frames are
  grouped per pass: every frame arriving between two polls is queued
  before the later poll.
- lipgloss and bubbletea rendering, the header and footer styles, and
  viewport scrolling (`GotoBottom`, `viewport.Update`) are not modelled.
  `View` returns the data the panels show.
- `%.2f` formatting is not modelled. `float64` division is modelled with
  exact `real` division.
- Go's `int` counters are unbounded here.
- Strings are sequences of characters, not bytes.
- `get_device_count`, `free_json_string`, `main.cpp` and the root
  `capture.cpp` are not modelled. They are thin pcap loops or frees.
- `StopCapture` in `internal/capture/capture.go` is a one-line call to
  `stop_capture`.
- The `PacketInfo` type that `tui.go` consumes is not defined in any
  source file here. `PacketSummary.PacketInfo` mirrors the three fields
  `tui.go` uses.
- The field comments in `capture.h` (lines 7-8) and `capture.cpp` (lines
  106-107) label `len` and `caplen` the wrong way round. The model follows
  the code, which copies and reads `caplen` bytes.
- `PollForPackets` in `internal/capture/capture.go` sleeps on every
  iteration. The loop in `main.go` sleeps only when the poll is empty.
  Both are modelled as written.
- Dashboard.Run: stops at the first quit key. bubbletea runs `tea.Quit`
  asynchronously, and a `packetMsg` that `waitForPacket` already read can
  still reach `Update` after it; those packets are not modelled.
- CaptureEngine.FreePacket: requires the frame to be held by the consumer.
  Freeing any other pointer is undefined behaviour in C++.
- CaptureEngine.PacketHandler: requires `caplen` to be at most the bytes
  pcap passes. pcap guarantees this.
- DeviceSelection.SelectsNumberedDevice: requires at most 2^63 - 1
  devices. Go's `len` is a 64-bit `int`.
