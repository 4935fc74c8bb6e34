# Verified model of the Traktor Kontrol F1 drivers

This project models two parts of the repository and proves properties of them.

* **The MIDI driver (`driver/`)**, from the bytes of the device to the bytes of the MIDI port and back:
  input reports are decoded and compared, changes become events, events become MIDI messages and
  lights; incoming MIDI bytes are parsed and change lights; lights become output reports.
* **The session handler of the OSC driver (`driver-osc/`)**: the state machine that announces the
  client, greets the other clients and fetches their signal lists one after the other, and the
  difference of two input states that the OSC driver broadcasts.

## How the model is built

| file | models |
|---|---|
| `Bits.dfy` | bytes, shifts, masks, `int8_t` |
| `MidiEvent.dfy` | parser and printer of MIDI messages |
| `MidiStream.dfy` | the stream iterator with its cached next position |
| `Changes.dfy`, `Controls.dfy` | element-wise differences; the controls, their events, a listener that replays events |
| `InputReport.dfy`, `OutputReport.dfy` | the layouts of the two reports |
| `F1Device.dfy` | the device class: buffers, states and loops |
| `Scaling.dfy` | scaling, rounding, truncation |
| `IOMapper.dfy` | the mapper: configuration, single steps, the class |
| `IOMapperRuns.dfy`, `EncoderRuns.dfy` | the mapper over every interleaving of HID and MIDI events |
| `DriverRuns.dfy`, `Driver.dfy` | the two loops of the main program, and what holds across the modules |
| `DriverLights.dfy` | from the bits of the device and the bytes of MIDI messages to the bytes sent to the device |
| `F1InputChange.dfy` | the OSC driver's input difference |
| `PeerMap.dfy`, `NonSession.dfy` | the ordered map of peers; the handler's state machine and class |
| `NonSessionRuns.dfy`, `NonSessionOrder.dfy`, `NonSessionPeers.dfy` | the handler in every run |

Classes and loops of the sources are classes and loops here; each method is tied to a function of its
inputs or of the old state, and the properties are proved of these functions. A run is a finite
sequence of inputs, each handled as one atomic step. Bytes are integers below 256, with shifts, masks
and `|` written out in base two; brightness factors are exact reals.

Assumptions about callers that appear as preconditions:

* event indices are within their group; for the results about the output bytes and about scaling,
  encoder values are at most 4095, the twelve bits of `hid-messages/protocol.md`;
* configured colours and levels are at most 127 for the range results; configured notes, controllers,
  velocities and the output channel fit MIDI for the results about the output bytes;
* brightness factors lie in [0, 1], and MIDI events handed to the mapper have data bytes below 128,
  which `MidiEvents.ParsedEventsAreWellFormed` shows of every parsed event.

Parameters stand for what comes from outside: the initial (uninitialised) input state, the reports
read, the bytes received, and whether the JACK client connects. The unread bytes of a ring buffer are
one sequence, and a map iterator is the key it points to. Sends are entries of a trace.

## Where code and documentation differ

The model follows the code.

* `driver/README.md:16-19` and `driver/src/tkf1/IOMapper.hpp:132-144` couple button lights to MIDI
  events. The code does so for the matrix only: there the light is that of the last event listened to
  (`IOMapperRuns.MidiLightRun`), while a special or stop button set to a MIDI mode keeps its initial
  light for ever (`IOMapperRuns.ButtonRun`, with an input in `IOMapperRuns.StopButtonStaysDark`).
* The input state starts uninitialised, and the first report is compared with whatever memory holds. A
  control whose position equals it is not reported until it leaves that position, so a listener holds 0
  for it (`DriverRuns.EndToEnd`, `HeardRightIff`). A fader reported as all the way up is heard as 127
  unless memory held just that value (`UpFaderIsHeardUnlessInMemory`). In every run in which the device
  reports the listener is right about a control exactly if memory held one of the 17 positions that
  scale to 0, or no position at all (`AlwaysHeardIff`).
* A refused announce reply fails the session but marks the handshake complete; a second
  `start_session` then greets without an accepted reply and without an open project
  (`NonSessionOrder.RestartSkipsConsent`). `ConsentIff` says in which runs this happens.
* A peer that joins late and sorts before the current one, or a start while a peer is awaited, breaks
  the order of peers: `NonSessionPeers.OrderKeptIff` says exactly which messages do. Two of them make
  the handler dereference the end of the map (`EarlierIdLeavesMap`, `RestartLeavesMap`):
  `LeavesMapExactlyWhen` says when in an ordered session, `LeavesMapInEveryRun` in any run.
* The end of a signal list does not run the state machine, so a second waiting peer stays unasked until
  another message arrives (`NonSessionPeers.SecondPeerIsLeftWaiting`). `StalledLeavesUnasked` says which
  peers an orderly run leaves unasked, `StalledExactlyWhen` when that begins and ends.
* The output list of `hid-messages/protocol.md` repeats an entry and is shifted by one from there; the
  model follows the code and `hid-messages/outputs.md`.

## Model

| member | source | states |
|---|---|---|
| MidiEvents.Parse | driver/src/io/MidiEvent.hpp:69-109 | the parsing loops, starting anywhere, compute the event and end position of one parse of the remaining bytes |
| MidiEvents.ParseOne | driver/src/io/MidiEvent.hpp:74-108 | a parse of a non-empty input consumes at least one byte and stops at the end or at a status byte |
| MidiEvents.StatusByteIsTopBit | driver/src/io/MidiEvent.hpp:121-124 | the mask test for status bytes holds exactly for bytes from 128 on |
| MidiEvents.ParsedEventsAreWellFormed | driver/src/io/MidiEvent.hpp:84-103 | whatever bytes arrive, parsed events have a channel below 16 and data bytes below 128 |
| MidiEvents.ParseNoisyWire | driver/src/io/MidiEvent.hpp:69-119 | parsing printed non-system messages returns exactly these messages, with any data bytes before the first and after each |
| MidiEvents.ParsePrint | driver/src/io/MidiEvent.hpp:111-119 | every list of printable events survives printing and parsing |
| MidiEvents.ReprintIsStable | driver/src/io/MidiEvent.hpp:69-119 | printing what was parsed from any bytes without system messages and parsing again gives the same events |
| MidiEvents.ParseAllAppend | driver/src/io/MidiEvent.hpp:69-109 | inputs split at message boundaries parse to the concatenation of their events |
| MidiEvents.SplitIsHarmlessIff | driver/src/io/MidiEvent.hpp:69-109 | splitting any input is harmless exactly at its ends, or between two parts with status bytes when the message cut through loses no data byte but zeros or is a system message |
| MidiEvents.EventCount | driver/src/io/MidiEvent.hpp:74-108 | one event per status byte; a non-empty input without any yields a single default event |
| MidiEvents.PrintedBytes | driver/src/io/MidiEvent.hpp:19-28 | the three bytes of each of the seven printed kinds, by their numbers in Table II of the MIDI specification |
| MidiEvents.ParsedBytes | driver/src/io/MidiEvent.hpp:84-109 | kind, channel and data of one message from its bytes: missing data bytes are 0, surplus ones and all of a system message are dropped |
| MidiStreams.StreamIterator.Deref | driver/src/io/MidiStream.cpp:21-26 | yields the first remaining event, moves nothing, and caches the end of that event |
| MidiStreams.StreamIterator.Increment | driver/src/io/MidiStream.cpp:28-36 | drops exactly the first remaining event, looked at or not, strictly advancing, and clears the cache |
| MidiStreams.StreamIterator.AdvanceReadPtr | driver/src/io/MidiStream.cpp:38-41 | the bytes left in the buffer parse to the remaining events |
| MidiStreams.Drive | driver/src/io/MidiStream.cpp:21-36 | any interleaving of looking and advancing observes the list of repeated parses: the cache is not observable |
| MidiStreams.Collect | driver/test/io/MidiStream.cpp:97-116 | iterating a stream to its end yields exactly the repeated parses of its bytes |
| InputReports.DecodeEncode | hid-messages/protocol.md:78-140 | a state written in the documented bit layout is decoded to itself: no two inputs share a bit |
| InputReports.EncodeDecode | driver/src/tkf1/F1Device.cpp:36-88 | writing a decoded report in the documented layout clears the three don't-care bits and nothing else |
| InputReports.DecodeSeesExactlyDocumentedBits | driver/src/tkf1/F1Device.cpp:44-87 | two reports decode alike exactly when they differ in don't-care bits only |
| InputReports.OwnReportIsRead | driver/src/tkf1/F1Device.cpp:36-88 | the state after a report with id 1 writes out as that report without don't-care bits; any other report changes nothing |
| InputReports.RunReadsLastOwn | driver/src/tkf1/F1Device.cpp:249-263 | over any run the state writes out as the last own report, and is the initial one before any |
| F1Devices.F1Device.UpdateInState | driver/src/tkf1/F1Device.cpp:36-88 | the loops save the old state and read the whole report, so that the new state writes out as the report, or leave the state alone for a foreign report id |
| F1Devices.F1Device.GenerateInputEvents | driver/src/tkf1/F1Device.cpp:154-230 | the loops emit the events of the change from the old to the new positions |
| F1Devices.F1Device.ReadEvents | driver/src/tkf1/F1Device.cpp:249-263 | after any report, replaying its events on the old positions gives the new positions |
| Controls.ReplayEvents | driver/src/tkf1/F1Device.cpp:154-230 | replaying the events of any change gives the new positions |
| Controls.EventsAreExact | driver/src/tkf1/F1Device.cpp:164-229 | an event occurs exactly if its control changed and it carries the new value; the wheel's carries the signed 8-bit difference |
| Controls.EventsAreOrdered | driver/src/tkf1/F1Device.cpp:164-229 | no control is reported twice for one report; reports come in a fixed order of controls |
| InputReports.ReplayOverRun | driver/src/tkf1/F1Device.cpp:249-263 | over any reports from an arbitrary initial state, replaying all events reproduces the decoded positions |
| InputReports.ForeignReportIsSilent | driver/src/tkf1/F1Device.cpp:38-40 | a report with another id changes nothing and yields no events |
| F1Devices.F1Device.UpdateOutReport | driver/src/tkf1/F1Device.cpp:90-152 | whatever the buffer held, it afterwards holds the report of the output state, all 81 bytes |
| OutputReports.ReportShowsLights | driver/src/tkf1/F1Device.cpp:90-152 | two output states give the same report exactly when every light is the same |
| OutputReports.ReportShowsSegments | driver/src/tkf1/F1Device.cpp:121-151 | dots and segments of both digits at their positions: a segment has the digit's brightness if its mask bit is set, else 0 |
| OutputReports.InRangeIsSevenBit | driver/src/tkf1/F1Device.cpp:97-147 | under the asserted ranges byte 0 is 0x80 and every other byte is below 128 |
| Scaling.ScaledValueIsUnique | driver/src/tkf1/IOMapper.cpp:17-33 | the scaled value is the one integer nearer than half to 127 v / 4095 |
| Scaling.TiesAreFar | driver/src/tkf1/IOMapper.cpp:28-31 | the exact value is at least 1/8190 from every tie, so ties never occur |
| Scaling.NearbyValuesRoundAlike | driver/src/tkf1/IOMapper.cpp:22-31 | any computed value nearer than 1/8190 to the exact one rounds to the same controller value |
| Scaling.ScaleIsMonotone | driver/src/tkf1/IOMapper.cpp:230-231 | scaling is monotone and maps the ends to 0 and 127 |
| Scaling.ScaleIsOnto | driver/src/tkf1/IOMapper.cpp:230-231 | every controller value is reached by some position |
| Scaling.DimEnds | driver/src/tkf1/IOMapper.cpp:282-284 | full and zero brightness are exact; truncation is at most one below rounding |
| Scaling.DimIsProduct | driver/src/tkf1/IOMapper.cpp:278-284 | for every factor, the HID path takes the nearest integer to the product, the MIDI path its integer part |
| Scaling.ControllerFactorIsShare | driver/src/tkf1/IOMapper.cpp:278-279 | a controller value dims to its share of 127 |
| IOMapping.IOMapper.ProcessHidInput | driver/src/tkf1/IOMapper.cpp:120-134 | one HID event updates latches, lights and message as its step function says |
| IOMapping.IOMapper.ProcessMidiEvent | driver/src/tkf1/IOMapper.cpp:136-172 | false exactly when, on the input channel, no note-mode matrix button has the number of a note on or off and no controller-mode one that of a control change; nothing changes when false |
| IOMapperRuns.MatrixButtonListens | driver/src/tkf1/IOMapper.cpp:265-335 | what each matrix button listens to, in configuration fields: its note on and off set the high and low colour, its controller the dimmed one; any other message leaves it alone |
| IOMapperRuns.MidiLightRun | driver/src/tkf1/IOMapper.cpp:136-172 | over every interleaving a matrix button in a MIDI mode has the colour of the last MIDI event it listens to, and its initial colour before any |
| IOMapperRuns.MidiStepIdempotent | driver/src/tkf1/IOMapper.cpp:136-172 | handling an event twice is handling it once |
| IOMapperRuns.MidiStepsCommuteIff | driver/src/tkf1/IOMapper.cpp:136-172 | two events commute exactly when no button listening to both takes different colours |
| IOMapperRuns.FullLightIsConfiguredColor | driver/src/tkf1/IOMapper.cpp:278-352 | full brightness shows the configured colour on both the HID and the MIDI path, zero shows black |
| IOMapperRuns.MidiNoteNearHid | driver/src/tkf1/IOMapper.cpp:324-350 | a note sets each colour component to the HID value or one below |
| IOMapperRuns.WheelMessageTellsDirection | driver/src/tkf1/IOMapper.cpp:109-118 | the wheel's message is the increment value exactly for a forward move of 1 to 127 positions round the 256 |
| IOMapperRuns.RunKeepsRange | driver/src/tkf1/IOMapper.cpp:120-172 | over every interleaving of HID and MIDI events all lights stay below 128 |
| IOMapperRuns.ButtonRun | driver/src/tkf1/IOMapper.cpp:174-220 | over every interleaving a button's latch, messages and HID light are those of the button alone; in a MIDI mode a matrix button shows the last event it listens to, any other keeps its initial light |
| IOMapperRuns.StopButtonStaysDark | driver/src/tkf1/IOMapper.cpp:136-172 | a concrete input: the note on of a stop or special button in note mode leaves it dark, that of a matrix button lights it |
| IOMapperRuns.ToggleMessages | driver/src/tkf1/IOMapper.cpp:184-204 | a toggle button sends one message per press, alternating from NOTE_ON, with the configured note and velocities; its latch is the parity of presses |
| IOMapperRuns.MomentaryMessages | driver/src/tkf1/IOMapper.cpp:206-219 | any other button sends NOTE_ON per press and NOTE_OFF per release |
| IOMapperRuns.LightFollowsMessages | driver/src/tkf1/IOMapper.cpp:338-375 | a HID-mode button shows the light its last message announced: the configured high level or colour after NOTE_ON, the low one after NOTE_OFF, whatever MIDI events are interleaved |
| IOMapperRuns.WheelRun | driver/src/tkf1/IOMapper.cpp:109-118 | over every interleaving each turn of the wheel sends one control change with the configured number and the value of its direction |
| IOMapperRuns.DisplaysStay | driver/src/tkf1/IOMapper.cpp:120-172 | no input of the mapper ever changes the displays or the report id |
| EncoderRuns.ListenerKnows | driver/src/tkf1/IOMapper.cpp:222-243 | a listener that holds the last controller value, 0 at first, always holds the scaled last position |
| EncoderRuns.OwnMessagesNeverRepeat | driver/src/tkf1/IOMapper.cpp:222-243 | for every configuration, the messages of one encoder never repeat a value, the first is not 0, and the last is the scaled last position |
| EncoderRuns.NoRedundantMessage | driver/src/tkf1/IOMapper.cpp:233-236 | with distinct controllers, an encoder message always differs from what the listener holds |
| EncoderRuns.ListenerIsRightIff | driver/src/tkf1/IOMapper.hpp:119-123 | the listener is right about every encoder in every run exactly when the controller numbers are distinct |
| Drivers.Driver.HandleReport | driver/src/main.cpp:174-187 | one round of the input thread is the report step of the driver machine and keeps the written report in range |
| Drivers.Driver.ProcessBatch | driver/src/main.cpp:190-200 | a batch processes the first events of the unread bytes, up to the limit, and reports the last one's change flag |
| Drivers.Driver.HandleMidi | driver/src/main.cpp:189-207 | one round of the main loop is the MIDI step of the driver machine and keeps the written report in range |
| Drivers.Driver.ReadEvent | driver/src/io/JackWrapper.cpp:286-299 | reading an event parses it and advances the buffer exactly behind it |
| DriverRuns.ReportsStaySevenBit | driver/src/main.cpp:174-207 | whatever reports and MIDI bytes arrive in any order, the device is sent seven-bit values |
| DriverRuns.DrainTakesPrefix | driver/src/main.cpp:190-200 | a batch takes a prefix of the parsed events and leaves exactly the others |
| DriverRuns.NothingLostOrInvented | driver/src/main.cpp:189-200 | with bytes arriving in whole messages, processed and unread events together are those of all bytes arrived |
| DriverRuns.OutputParsesBack | driver/src/io/JackWrapper.cpp:204-221 | the bytes sent for a run parse back to the messages of the run |
| DriverRuns.LightsFollowBytes | driver/src/main.cpp:189-207 | with bytes arriving in whole messages, a matrix button in a MIDI mode has the colour of the last matching event parsed from the bytes arrived and processed, and a report from the device makes the output report show it |
| DriverRuns.EndToEnd | driver/src/main.cpp:174-187 | a listener that parses the driver's bytes holds the scaled present position of every encoder that some report has shown away from what memory held at the start, and 0 for any other |
| DriverRuns.HeardRightIff | driver/src/tkf1/F1Device.cpp:154-230 | in a run with a report of the device, the listener is right about an encoder exactly when a report has shown it away from initial memory, or initial memory is a position that scales to 0 |
| DriverRuns.AlwaysHeardIff | driver/src/tkf1/F1Device.cpp:154-230 | the listener is right about an encoder in every run with a report of the device exactly when initial memory held a position that scales to 0 or no position at all |
| DriverRuns.UpFaderIsHeardUnlessInMemory | driver/src/tkf1/F1Device.cpp:36-88 | for every initial memory: a fader reported as all the way up is heard as 127, or as 0 if memory already held that position |
| DriverLights.HistoryIsEventsOfReports | driver/src/main.cpp:174-187 | in every run the driver handles exactly the events of the reports, in order, whatever MIDI bytes come between them |
| DriverLights.ReportIsFresh | driver/src/main.cpp:174-187 | every report of the device is answered with a report of the lights after its own events |
| DriverLights.AnswerShowsButton | driver/src/main.cpp:174-187 | in every run, byte for byte: the answer to a report shows each HID-mode button as configured for its last message, and dark before any |
| DriverLights.AnswerShowsPosition | driver/src/main.cpp:174-187 | for a button that does not toggle, the answer shows its position in the report just read, once it has left what memory held at the start |
| DriverLights.MidiBytesReachDevice | driver/src/main.cpp:189-207 | after any run that left nothing unread, the three bytes of a note on, note off or control change set the three bytes of the listening matrix button in the output report |
| DriverLights.BatchIsFlushedIff | driver/src/main.cpp:189-207 | from an up-to-date report, a batch leaves the next one up to date exactly if its last event found a listener or no light changed |
| DriverLights.ChangeIsNotFlushed | driver/src/main.cpp:199 | a concrete batch: a note lights a button, a later message without a listener keeps that from the device |
| F1InputChanges.Minus | driver-osc/src/F1InputState.cpp:3-62 | the loops compute the difference, patching the older state with it gives the newer one, and it carries the newer wheel position |
| F1InputChanges.ButtonListsAreExact | driver-osc/src/F1InputState.cpp:11-39 | pressed and released lists are increasing, disjoint, together the changed buttons, and swap roles in the opposite difference |
| F1InputChanges.WheelDiffIsUnique | driver-osc/src/F1InputState.cpp:41-43 | the wheel difference is the one value in -128..127 congruent to the change modulo 256 |
| F1InputChanges.WheelFieldsAgree | driver-osc/src/F1InputState.cpp:41-43 | the wheel position is the newer one, and the wheel difference leads to it from the older one |
| F1InputChanges.EncoderListsAreExact | driver-osc/src/F1InputState.cpp:45-59 | knobs and faders are listed in increasing order, exactly the changed ones, with their newer value |
| F1InputChanges.EmptyChangeIff | driver-osc/src/F1InputState.hpp:47-54 | a difference has no content exactly when the states are equal |
| F1InputChanges.WheelDiffsAddUp | driver-osc/src/F1InputState.cpp:41-43 | over a run the wheel differences add up to the total change modulo 256 |
| F1InputChanges.PatchesReachLast | driver-osc/src/F1InputState.cpp:3-62 | a receiver patching every difference of a run knows the last state |
| PeerMaps.LessIsLexicographic | driver-osc/src/NonSessionHandler.cpp:347-355 | the order of keys: a proper prefix first, else the first differing character decides |
| PeerMaps.EmplaceKeepsSorted | driver-osc/src/NonSessionHandler.cpp:347-355 | inserting a fresh client id keeps the map in lexicographic key order |
| PeerMaps.NextIsSuccessor | driver-osc/src/NonSessionHandler.cpp:246-250 | incrementing the iterator moves to the next key, or to the end behind the last |
| NonSessions.NonSessionHandler.StepStateMachine | driver-osc/src/NonSessionHandler.cpp:180-271 | the self-calling step terminates by a decreasing rank and has the outcome of the step function, including a dereferenced end iterator |
| NonSessions.NonSessionHandler.HandleAnnounceReply | driver-osc/src/NonSessionHandler.cpp:40-63 | an announce reply is accepted, refused for a missing capability, or fails the session out of turn |
| NonSessions.NonSessionHandler.HandleOpen | driver-osc/src/NonSessionHandler.cpp:385-415 | an open replies and runs the machine, or reports an error and fails when JACK does not connect |
| NonSessions.NonSessionHandler.HandleReply | driver-osc/src/NonSessionHandler.cpp:21-38 | the end of a signal list finishes the current peer without running the machine, and is ignored out of time |
| NonSessions.NonSessionHandler.HandlePeerHello | driver-osc/src/NonSessionHandler.cpp:336-357 | a hello adds a fresh peer and runs the machine; a known peer fails the assertion |
| NonSessionRuns.StepInClosedForm | driver-osc/src/NonSessionHandler.cpp:180-271 | however often it reruns, a step sends at most an announce, a hello and a request, in that order, and fails exactly at the end of the map |
| NonSessionRuns.RunIsConsistent | driver-osc/src/NonSessionHandler.cpp:180-271 | after every message the machine rests in a state that agrees with its flags, with no more finished peers than peers, strictly fewer while a list is awaited |
| NonSessionRuns.WhatIsSent | driver-osc/src/NonSessionHandler.cpp:180-271 | from the state before a message alone: exactly when it causes an announce, a hello and a request, to whom, and in which order |
| NonSessionRuns.FaultsExactlyWhen | driver-osc/src/NonSessionHandler.cpp:180-271 | a handler at rest faults exactly on moving on without a next peer, on a known peer's hello, or on a stray signal reply |
| NonSessionRuns.HellosNeverExceedStarts | driver-osc/src/NonSessionHandler.cpp:82-94 | in every run, hellos sent plus one still pending never exceed the session starts |
| NonSessionOrder.OrderInEveryRun | driver-osc/src/NonSessionHandler.cpp:180-271 | in every run a hello comes after an announce, and a signal-list request after a hello |
| NonSessionOrder.SingleStartOrder | driver-osc/src/NonSessionHandler.cpp:180-235 | with one start there is at most one hello, after the announce, the accepted reply and the open, and before any request |
| NonSessionOrder.MarksTellMessages | driver-osc/src/NonSessionHandler.cpp:40-63 | the trace holds an acceptance or an open reply exactly when an in-time reply with the capability or a successful open has arrived |
| NonSessionOrder.ConsentIff | driver-osc/src/NonSessionHandler.cpp:84-90 | in every run, each hello has an accepted reply and an open before it exactly when no start finds the handshake complete before both have arrived |
| NonSessionOrder.AcceptedIffListed | driver-osc/src/NonSessionHandler.cpp:466-483 | a reply that is waited for is accepted exactly if "broadcast" stands anywhere in the capabilities; any other reply fails the session |
| NonSessionOrder.FlagsTellMessages | driver-osc/src/NonSessionHandler.cpp:40-80 | in every run: handshake complete exactly if a reply came in time and no announce error since, project open exactly if some open succeeded, client id that of the last open |
| NonSessionOrder.EveryRequestIsAnswered | driver-osc/src/NonSessionHandler.cpp:385-456 | in every run opens, saves and signal-list queries are answered once each and in order |
| NonSessionOrder.RestartSkipsConsent | driver-osc/src/NonSessionHandler.cpp:49-51 | a concrete run: start, refused reply, start sends a hello without acceptance and without open |
| NonSessionOrder.FailsExactlyWhen | driver-osc/src/NonSessionHandler.cpp:40-80 | which messages fail a session: a refused or untimely announce reply, an announce error, an open without JACK |
| NonSessionOrder.FailureIsFinal | driver-osc/src/NonSessionHandler.cpp:187-190 | after a failure nothing is announced, greeted or asked any more until the next start |
| NonSessionPeers.OrderlyStep | driver-osc/src/NonSessionHandler.cpp:243-258 | an orderly message keeps the peer order and faults exactly on a known peer or a stray signal reply |
| NonSessionPeers.OrderKeptIff | driver-osc/src/NonSessionHandler.cpp:180-271 | any message keeps an ordered session ordered exactly when it is no start with a peer pending, no fresh hello from before the current peer, and not refused |
| NonSessionPeers.HelloKeepsOrderIff | driver-osc/src/NonSessionHandler.cpp:246-250 | a fresh hello, in any state with a current peer, keeps the order exactly when its id sorts behind that peer |
| NonSessionPeers.StartKeepsOrderIff | driver-osc/src/NonSessionHandler.cpp:82-94 | a start keeps the order exactly when no peer is being waited for |
| NonSessionPeers.PeersCompleteInOrder | driver-osc/src/NonSessionHandler.cpp:24-37 | in orderly runs the completed peers are the first of the map, each once, and only refused messages fault |
| NonSessionPeers.SingleStartKeepsPeersInOrder | driver-osc/src/NonSessionHandler.cpp:243-258 | with one start and hellos sorting behind the current peer, the iterator names the peer whose rank is the number of finished ones |
| NonSessionPeers.LeavesMapExactlyWhen | driver-osc/src/NonSessionHandler.cpp:246-250 | an ordered session dereferences the end of the map exactly on a restart while the last peer is awaited, or on a late hello from before the last of all finished peers |
| NonSessionPeers.LeavesMapInEveryRun | driver-osc/src/NonSessionHandler.cpp:246-250 | in every run the end is dereferenced exactly when the handler moves on from the last key of the map |
| NonSessionPeers.EarlierIdLeavesMap | driver-osc/src/NonSessionHandler.cpp:246-250 | a concrete run: a late peer that sorts first makes the handler dereference the end of the map |
| NonSessionPeers.RestartLeavesMap | driver-osc/src/NonSessionHandler.cpp:82-94 | a concrete run: a second start while the only peer is awaited makes the handler dereference the end of the map |
| NonSessionPeers.PeersAskedInOrder | driver-osc/src/NonSessionHandler.cpp:236-258 | in orderly runs exactly the finished peers and the awaited one have ever been asked for their signals |
| NonSessionPeers.StalledLeavesUnasked | driver-osc/src/NonSessionHandler.cpp:24-37 | an orderly run at rest in the running state has left a peer unasked exactly when it is stalled, namely the peers from rank handshaked_peers on |
| NonSessionPeers.StalledExactlyWhen | driver-osc/src/NonSessionHandler.cpp:24-37 | the handler becomes stalled exactly at a list end with others waiting, and stays so until a message runs the machine or an open fails |
| NonSessionPeers.SecondPeerIsLeftWaiting | driver-osc/src/NonSessionHandler.cpp:24-37 | a concrete run: the end of the first list leaves the second peer unasked |
| NonSessionPeers.SignalsAreConserved | driver-osc/src/NonSessionHandler.cpp:458-465 | in every run the peers hold as many signals as signal replies have arrived |
| NonSessionPeers.SignalsBelongToPeers | driver-osc/src/NonSessionHandler.cpp:458-465 | in every run each peer holds exactly the signals of the replies that arrived while it was current, in order |
| NonSessionPeers.CompletionsAnswerRequests | driver-osc/src/NonSessionHandler.cpp:24-37 | in every run a signal list ends only for a peer that was asked for it before, and whoever is awaited has been asked |

## Left out

- Scaling.ScaleEncoder: from position 8239 on the scaled value does not fit its byte and the C++ conversion is undefined; the low eight bits stand for it. No light depends on it.
- Scaling.DimRounded: exact real factors; the rounding error of `float` and `double` products is not modelled.
- Scaling.DimTruncated: exact real factors. With doubles, a controller value v of 17, 21, 25, 29, 34, 42, 50, 58, 68, 84, 100 or 116 gives v - 1 on a full colour component, where the model gives v.
- F1Devices.F1Device.UpdateInState: each loop fills a copy of its part of the state, stored at the end; nothing reads the state in between.
- Drivers.Driver.ProcessHid: the output buffer is unbounded; the assertion that it is not full (`driver/src/io/JackWrapper.cpp:281`) is not modelled.
- Drivers.Driver.HandleMidi: models whole batches; the byte-wise pushes of the JACK thread between two reads, and the bytes dropped when its buffer is full, are not modelled.
- NonSessions.NonSessionHandler.StepStateMachine: the mutex and the two threads are not modelled; each message is one atomic step.
- Whether a change is written to the device eventually: the batch loop keeps the flag of its last event only; `DriverLights.BatchIsFlushedIff` says which single batch is.
- The second segment of a wrapped ring buffer, whose offset `driver/src/io/RingbufferIterator.cpp:20` does not correct: unread bytes are one sequence.
- Changes of the mapper's public configuration during a run: the configuration is fixed.
- Events that combine a button type with an encoder kind: they cannot be written in the model, and the device never generates them.
- `broadcast_input_event` and the stop-button latch of the OSC main loop: message construction.
- Arguments of OSC messages that are only logged or forwarded (names, URLs, versions, paths of projects).
- Note names, segment tables for digits, button names, stream printing: finite tables.
- OSC transport, JACK ports, device discovery, privileges, file access: foreign calls.
