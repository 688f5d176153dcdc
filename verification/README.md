# A verified model of the R503 fingerprint reader's authenticated channel and daemon

The system is a fingerprint sensor on an Arduino Nano, driven over a serial line by a Linux daemon.
After pairing, every command travels as `C <counter> <command> M <tag>` and every line of the answer as
`R <counter> <seq> <body> M <tag>`, tagged with SipHash-2-4 under a shared key. The host keeps its next
counter on disk and saves it before each send; the Nano keeps the last counter it accepted in a ring of
sixteen EEPROM cells with CRC-16. The daemon serves several D-Bus clients with one sensor worker, one
action token, one capture permit and a registry of sensor slots.

The project models that system and proves, for all inputs and all runs, what its two ends promise each other.

* **Bytes, Decimal, MacWire, SipHash, SipHashVectors, WireVectors, Crc16** - the arithmetic both ends share. Both
  SipHash codes compute the definition in section 2 of Aumasson and Bernstein, "SipHash: a fast short-input PRF"
  (2012), that definition gives the canonical tags, and CRC-16 with the ITU-T V.41 polynomial detects every change
  confined to two adjacent bytes.
* **Framing, FirmwareFraming** - the two independent implementations of the frame grammar, their exactness and
  their agreement.
* **Eeprom, EepromRing, RingRuns, EepromTears** - the EEPROM as bytes and as code over the live array; power loss
  after every byte of a save, a wipe or a pairing; runs of any length; and exactly which cut saves load a counter
  nobody sent.
* **Nano, NanoBoard, NanoBuffers, Gate, Onboarding** - the firmware's line handling as a function of EEPROM image
  and line, the same thing as code over global buffers, the fixed buffers' sufficiency, what each line is answered,
  and whole commands from pairing to unpairing.
* **SensorLink, Exchange, Refinement** - the daemon's line reader and framed command, with the serial port as a
  list of chunks, pauses, deadlines and errors.
* **Pairing, Channel, ChannelSafety, ChannelAgreement, ChannelLimits, ChannelRuns** - the protocol as a state machine: host
  steps (save, send, hear, time out, crash, reopen), the unpair tool as a second sender that also goes by
  unauthenticated status lines, the resync tool, Nano steps with power loss inside the save and the wipe, and a
  network that delivers any line at all. ChannelLimits holds what the protocol does not give.
* **Worker, Storage, Device, Daemon, DaemonSafety, DaemonTokens, DaemonActions, DaemonClaims, DaemonVerdicts,
  DaemonRegistry, DaemonTemplates, DaemonRaces** - the worker's reopen and retry, the registry, and all handlers and
  tasks interleaved at every lock and await, with the sensor's template flash beside the registry: whose calls are
  heard, who may act when, what a verify-match means and when it is due, where every change of a row comes from,
  when every registered finger keeps its template, and the runs in which one does not.
* **SealedBlob** - the sealed-key file format.

Assumptions are predicates and are named where they are used. `Channel.Genuine` is the ideal tag: a delivered
line verifies only on an input that the host or the Nano has tagged. `Channel.FewLines` says no command prints
2^32 lines, where sequence numbers would repeat. `Channel.CleanSave` says a save that power interrupts goes over a
tear-safe cell (`EepromTears.TearSafe`), which is exactly when no third counter can load
(`EepromTears.TearSafeExact`); over a valid cell equal high bits are enough, and over an erased one every counter
below 2^16 but six. `Channel.Forward` says a resync does not move the host's counter backward. `AtMostOnce`
needs none of these and `CommandsAreAuthentic` only the first two. `DaemonTemplates.Tidy` collects three conditions
on the daemon's steps, each of which `DaemonRaces` shows to be needed.

Where code and documentation differ, the model follows the code, and these lemmas say what the code does:

* `EepromTears.WiderTearInvents` and `EepromTears.ErasedTearInvents`: a torn save can load a counter nobody sent;
  `ChannelLimits.FirstSaveCanStick`: one such save can end all dispatching, unpair included.
* `EepromTears.PairingTorn`, `EepromTears.RingResetTorn`: pairing is not atomic, in its key nor in its ring.
* `ChannelAgreement.ForgedStatusRemovesKey`: one unauthenticated status line makes the unpair tool delete the host
  key while the Nano stays paired; `ChannelAgreement.UnpairIsReal` says exactly when the removal is right.
* `ChannelLimits.ResyncExact`, `ChannelLimits.ResyncBreaksIntegrity`: resync can move the host's counter backward,
  although the comment at `pcside/daemon/src/pairing.rs:517-524` says it moves forward only and cannot weaken
  replay protection; even a true report can then make an old reply pass for a new one.
* `ChannelLimits.StuckExactly`, `ChannelLimits.StuckForever`: unpair is not always possible.
* `DaemonRaces.DeletesOverlap`, `DaemonRaces.OrphanDeleteLosesARow`, `DaemonRaces.StaleSlotLosesARow`,
  `DaemonRaces.LateRowLosesARow`, `DaemonRaces.LostReplyLosesARow`: the delete gate
  (`pcside/daemon/src/dbus_iface.rs:268-275`) does not keep deletes apart, and a registered finger can lose its
  template in four ways, although
  `pcside/daemon/src/dbus_iface.rs:71-75` says surviving rows still have theirs.
* `SealedBlob.PanicExactly`: the blob reader is not total.
* `FirmwareFraming.OnlyEmptyCommandsDiffer`: one family of lines the two parsers treat differently.

A C or Rust string is a sequence of bytes. `saveCut` and `bulkCut` are the number of bytes after which power
fails during a counter save, and during a wipe or a pairing; values at or above the length mean it completes.
`script` is whatever a sensor handler prints.

## Model

| member | source | states |
|---|---|---|
| SipHash.SipHash24Rust | pcside/daemon/src/crypto.rs:42-79 | the loop-tail SipHash equals the SipHash-2-4 definition for every key and message length |
| SipHash.SipHash24Firmware | firmware/r503fp/siphash.h:41-83 | the ladder-tail SipHash on the first bytes of a buffer equals the same definition |
| SipHash.LoadU64Le | firmware/r503fp/siphash.h:26-32 | the shift loop reads eight bytes as a little-endian word |
| SipHash.TailLadder | firmware/r503fp/siphash.h:60-69 | the seven conditional shifts build the padded last word for every length |
| SipHash.LastWord | pcside/daemon/src/crypto.rs:60-65 | the last block built by or-ing shifted bytes is the definition's padded final word |
| SipHashVectors.KnownAnswers | firmware/r503fp/r503fp.ino:413-436 | the definition gives the four canonical tags, byte for byte |
| SipHashVectors.SiphashKatOk | firmware/r503fp/r503fp.ino:413-436 | so the boot self-test passes |
| MacWire.MacToHex | pcside/daemon/src/crypto.rs:87-94 | prints the eight tag bytes, lowest first, as sixteen lower-case digits |
| MacWire.MacBytesRoundTrip | pcside/daemon/src/crypto.rs:82-84 | a tag and its eight little-endian bytes determine each other |
| MacWire.UnHexExact | firmware/r503fp/framing.h:36-64 | a text reads back as given bytes exactly when, lower-cased, it is their printed form |
| MacWire.ParseMacHexLoop | pcside/daemon/src/framing.rs:199-211 | the array-filling loop returns the tag, or nothing on a bad length or digit |
| MacWire.ParseMacHexExact | pcside/daemon/src/framing.rs:199-220 | a text reads as a tag exactly when, lower-cased, it is that tag's wire form |
| WireVectors.KnownCommand | pcside/daemon/src/framing.rs:55-63 | the frame of "verify 0" under counter 42 and the test key, to the last digit |
| WireVectors.KnownReply | pcside/daemon/src/framing.rs:95-105 | the same for the reply body "PROGRESS place_finger" |
| FirmwareFraming.SiphashToLeBytes | firmware/r503fp/siphash.h:85-89 | the byte loop writes the same eight bytes as the host's wire form |
| Crc16.Crc16Ccitt | firmware/r503fp/eeprom.h:54-63 | the two loops compute the shift-register definition of the CRC |
| Crc16.StepLinear | firmware/r503fp/eeprom.h:59 | one bit step is linear over xor |
| Crc16.StepInjective | firmware/r503fp/eeprom.h:59 | one bit step loses no information |
| Crc16.AdjacentChangeDetected | firmware/r503fp/eeprom.h:54-63 | two messages alike outside two adjacent bytes with the same CRC are equal |
| Eeprom.EeIsPaired | firmware/r503fp/eeprom.h:67-72 | true exactly when magic and format byte both stand |
| Eeprom.EeLoadKey | firmware/r503fp/eeprom.h:74-80 | copies the sixteen key bytes when paired, leaves the buffer alone otherwise |
| Eeprom.EeSavePairing | firmware/r503fp/eeprom.h:82-95 | leaves the record, the key and an erased ring, and nothing else changed |
| Eeprom.EeWipe | firmware/r503fp/eeprom.h:97-102 | after any number of bytes, exactly that prefix is 0xFF |
| Eeprom.EeScanRing | firmware/r503fp/eeprom.h:113-135 | the live scan equals the scan of the EEPROM's image |
| Eeprom.ScanFacts | firmware/r503fp/eeprom.h:113-135 | the scan finds the largest counter of the valid cells and a cell holding it, or reports none exactly when there is none |
| Eeprom.EeLoadCounter | firmware/r503fp/eeprom.h:137-139 | returns the scan's maximum, 0 if no cell is valid |
| Eeprom.EeSaveCounter | firmware/r503fp/eeprom.h:146-163 | with power lost after any number of bytes, exactly that prefix of the new cell is down |
| Eeprom.EncodedCell | firmware/r503fp/eeprom.h:153-158 | a packed cell is valid and reads back as its counter |
| EepromRing.NextCellSparesMaximum | firmware/r503fp/eeprom.h:148-151 | the cell holding the maximum is never the one written |
| EepromRing.PowerLossNeverRewinds | firmware/r503fp/eeprom.h:113-163 | for any EEPROM contents and any byte prefix of a save, the loaded counter never falls |
| EepromRing.CompletedSaveLoads | firmware/r503fp/eeprom.h:137-163 | a completed save of a larger counter is what loads |
| EepromRing.LoadAfterPrefix | firmware/r503fp/eeprom.h:113-163 | what loads after any byte prefix: the mixed cell's counter if it is valid and larger, else the old one |
| EepromRing.PairingSurvivesPrefix | firmware/r503fp/eeprom.h:146-163 | no prefix of a save touches the pairing record or key |
| EepromRing.TornWriteExact | firmware/r503fp/eeprom.h:54-163 | over a valid cell differing in at most three adjacent counter bytes, every cut loads the old maximum or the new counter |
| EepromRing.TornSaveExact | firmware/r503fp/eeprom.h:54-163 | the same, told by the counters: high parts above the low 24 bits equal |
| EepromRing.ErasedCellInvalid | firmware/r503fp/eeprom.h:90-94 | a cell of 0xFF bytes is never valid |
| EepromRing.FreshRing | firmware/r503fp/eeprom.h:82-95 | after pairing no cell is valid, 0 loads and the first save goes to cell 0 |
| RingRuns.RingOverRuns | firmware/r503fp/eeprom.h:67-163 | after any increasing run of saves: the last counter loads, exactly the last sixteen are held, pairing and key are intact, wear is level within one |
| EepromTears.TearSafeExact | firmware/r503fp/eeprom.h:113-163 | every cut of a save loads the old or the new counter exactly when no mixture of new and old cell reads as a third one |
| EepromTears.HighBitsAreSafe | firmware/r503fp/eeprom.h:113-163 | over a valid cell, counters equal above the low 24 bits are enough for that |
| EepromTears.ErasedSafeExactly | firmware/r503fp/eeprom.h:90-163 | over an erased cell a counter below 2^16 is safe exactly unless it is one of six |
| EepromTears.TheSix | firmware/r503fp/eeprom.h:54-63 | the six, spelled out |
| EepromTears.ErasedTearInvents | firmware/r503fp/eeprom.h:82-163 | one of them: right after pairing, a save of 0xAD46 cut after two bytes loads a counter in the reserved band |
| EepromTears.WiderTearInvents | firmware/r503fp/eeprom.h:146-163 | on the ring left by saves of 1 to 16, a save of 0x1011422 cut after three bytes loads 0x11422 |
| EepromTears.PairingTorn | firmware/r503fp/eeprom.h:82-89 | when a cut pairing counts as paired, and the part-new part-old key it then has |
| EepromTears.RingResetTorn | firmware/r503fp/eeprom.h:82-95 | a cut ring reset leaves the new key, and loads at least a given counter exactly when some cell not fully erased still does |
| EepromTears.KnownCell | firmware/r503fp/eeprom.h:153-160 | the ten bytes of the cell that holds counter 1 |
| Decimal.FormatU64 | firmware/r503fp/framing.h:69-82 | prints the decimal text, NUL-terminated, at most 20 digits, touching nothing else |
| Decimal.ParseU64 | firmware/r503fp/framing.h:96-111 | the overflow-testing loop accepts exactly what the daemon's parser accepts, with the same value |
| Decimal.ParseU32 | firmware/r503fp/framing.h:113-119 | the same for 32-bit numbers |
| Decimal.ParseStrictU64Exact | pcside/daemon/src/framing.rs:174-188 | a text parses to a number exactly when it is that number's printed form |
| Decimal.ParseStrictU32Exact | pcside/daemon/src/framing.rs:190-197 | the same for 32-bit numbers |
| Framing.CommandInputInjective | pcside/daemon/src/framing.rs:60 | the string a command tag covers determines counter and text |
| Framing.ResponseInputInjective | pcside/daemon/src/framing.rs:96 | the string a response tag covers determines counter, seq and body |
| Framing.DomainsApart | pcside/daemon/src/framing.rs:60-96 | no command and response share a tagged string |
| Framing.ParseCommandExact | pcside/daemon/src/framing.rs:67-74 | a line parses as a command and tag exactly when, canonicalized, it is their printed form |
| Framing.ParseResponseExact | pcside/daemon/src/framing.rs:108-120 | the same for responses |
| Framing.VerifyCommandExact | pcside/daemon/src/framing.rs:77-91 | a line verifies as a command exactly when, canonicalized, it is the encoder's output |
| Framing.VerifyResponseExact | pcside/daemon/src/framing.rs:123-135 | the same for responses |
| Framing.CommandRoundTrip | pcside/daemon/src/framing.rs:55-91 | encode then verify returns every command, whatever its text |
| Framing.ResponseRoundTrip | pcside/daemon/src/framing.rs:95-135 | encode then verify returns every response, whatever its body |
| Framing.NoResponseTag | pcside/daemon/src/framing.rs:108-167 | the error for a line by its leader, length, tag mark and tag |
| Framing.NoResponseCounter | pcside/daemon/src/framing.rs:108-120 | the error for a tagged line without a counter, with another spelling of one, or with nothing after it |
| Framing.NoResponseSeq | pcside/daemon/src/framing.rs:108-135 | the error for another spelling of a sequence number; otherwise the tag alone decides |
| FirmwareFraming.HexToBytes | firmware/r503fp/framing.h:43-55 | accepts exactly even-length hex that fits, and decodes it |
| FirmwareFraming.BytesToHex | firmware/r503fp/framing.h:57-64 | writes the digits and a NUL at the offset, touching nothing else |
| FirmwareFraming.ComputeCmdMac | firmware/r503fp/framing.h:127-147 | succeeds exactly when the tagged string fits 128 bytes, with the same tag as the daemon |
| FirmwareFraming.ComputeRespMac | firmware/r503fp/framing.h:149-172 | the same for responses |
| FirmwareFraming.ParseCommandFrame | firmware/r503fp/framing.h:192-222 | the pointer-and-offset parser decides every line as its specification, with each status code |
| FirmwareFraming.VerifyCommandFrame | firmware/r503fp/framing.h:226-247 | parse, tag and byte-by-byte comparison decide every line as the specification |
| FirmwareFraming.EncodeResponseFrame | firmware/r503fp/framing.h:253-289 | builds the daemon's response frame, or 0 exactly when tag buffer or frame buffer would overflow |
| FirmwareFraming.ParsersAgree | firmware/r503fp/framing.h:192-222 | the firmware accepts a line exactly when the daemon does and it has 24 bytes, with the same counter, command and tag |
| FirmwareFraming.OnlyEmptyCommandsDiffer | firmware/r503fp/framing.h:198-200 | the only lines parsed differently carry a one-digit counter and an empty command |
| FirmwareFraming.VerifiersAgree | firmware/r503fp/framing.h:226-247 | both verifiers accept the same command under every key, on exactly the lines of 24 to 145 bytes |
| NanoBoard.Board.WriteByte | firmware/r503fp/r503fp.ino:41-53 | the framer's buffer takes, drops or flushes each byte as the line model says |
| NanoBoard.Board.FlushLine | firmware/r503fp/r503fp.ino:72-92 | a non-empty line goes out as the next frame of the session's stream, or as the overflow warning |
| NanoBoard.Board.Dispatch | firmware/r503fp/r503fp.ino:377-403 | every verb's effect on EEPROM and output, framed or raw, a sensor verb printing the given script |
| NanoBoard.Board.HandleStatus | firmware/r503fp/r503fp.ino:213-225 | the status line states pairing, stored counter and format |
| NanoBoard.Board.HandlePair | firmware/r503fp/r503fp.ino:230-241 | pairs only when unpaired and given 32 hex digits, with power loss at any byte |
| NanoBoard.Board.HandleUnpair | firmware/r503fp/r503fp.ino:246-250 | wipes only when paired, with power loss at any byte |
| NanoBoard.Board.ProcessLine | firmware/r503fp/r503fp.ino:267-375 | the global-buffer code does to EEPROM and serial output exactly what `Nano.Process` says |
| NanoBoard.Board.ReceiveByte | firmware/r503fp/r503fp.ino:461-481 | one turn of the receive loop: buffer, overflow or process a line |
| Nano.LinesAreShort | firmware/r503fp/r503fp.ino:461-481 | every line handed on has 1 to 127 bytes and no terminator |
| Nano.LineArrives | firmware/r503fp/r503fp.ino:461-481 | a line of up to 127 bytes sent to an idle Nano is handed on whole and alone |
| Nano.OverflowExactly | firmware/r503fp/r503fp.ino:461-481 | the loop drops a line exactly at its 128th byte |
| Gate.AlwaysAnswered | firmware/r503fp/r503fp.ino:270-279 | ping and status are answered outside any frame in every state |
| Gate.NoFrame | firmware/r503fp/r503fp.ino:288-317 | a paired Nano's answer to a line without the leader or below 24 bytes |
| Gate.NoTag | firmware/r503fp/r503fp.ino:298-317 | its answer to a line without tag mark, or without hex after it |
| Gate.NoCounter | firmware/r503fp/r503fp.ino:298-317 | its answer to a frame whose counter is no number's printed form |
| Gate.FramesExactly | firmware/r503fp/r503fp.ino:298-374 | what becomes of every other frame: wrong tag, replay, reserved counter, cut save, overlong command, or execution |
| Onboarding.PairStoresKey | firmware/r503fp/r503fp.ino:230-241 | an unpaired Nano sent "pair" and a key in hex ends up with exactly that key, counter 0, and says so |
| Onboarding.PairRefusedOtherwise | firmware/r503fp/r503fp.ino:230-241 | every other pair line leaves the EEPROM alone and names its fault |
| Onboarding.PairedLayout | firmware/r503fp/eeprom.h:29-42 | the paired EEPROM, byte by byte |
| Onboarding.RequestsAreServed | firmware/r503fp/r503fp.ino:319-403 | each of the daemon's nine requests, sent in its frame, is saved, reaches its own handler and is answered in frames |
| Onboarding.RequestTextsDiffer | pcside/daemon/src/sensor.rs:472-547 | the texts of different requests differ |
| Onboarding.OthersAnswered | firmware/r503fp/r503fp.ino:386-402 | every other text gets its fixed answer or the forty-byte echo |
| Onboarding.UnpairErases | firmware/r503fp/r503fp.ino:246-250 | the framed unpair erases the 192 managed bytes and nothing else, and one frame says so |
| Onboarding.RefusedInside | firmware/r503fp/r503fp.ino:230-250 | inside a frame a paired Nano refuses to pair, an unpaired one to unpair |
| Onboarding.PairedAgain | firmware/r503fp/r503fp.ino:230-250 | after it a new pairing has the new key alone, and counter 0 |
| NanoBuffers.FitsExactly | firmware/r503fp/framing.h:253-289 | a body is framed exactly when digits of counter and seq plus body are at most 122 bytes |
| NanoBuffers.ShortBodiesFit | firmware/r503fp/r503fp.ino:72-92 | a body of at most 92 bytes is framed for every counter and seq |
| NanoBuffers.LongerBodiesMayNot | firmware/r503fp/framing.h:149-172 | 92 is the best such bound |
| NanoBuffers.PrintlnIsOneBody | firmware/r503fp/r503fp.ino:41-53 | println of a short plain text makes exactly one body |
| NanoBuffers.LongLinesAreCut | firmware/r503fp/r503fp.ino:41-53 | println of a longer one makes one body of its first 127 bytes |
| NanoBuffers.OverlongReply | firmware/r503fp/r503fp.ino:72-92 | a body that cannot be framed goes out as an unframed warning |
| NanoBuffers.UnknownAlwaysFits | firmware/r503fp/r503fp.ino:391-402 | the unknown-command echo is one body of at most 60 bytes, always framed |
| NanoBuffers.InfoAlwaysFits | firmware/r503fp/r503fp.ino:94-111 | the info line is at most 90 bytes for 16-bit fields and a 32-bit address, always framed |
| NanoBuffers.LoopLinesVerifyAlike | firmware/r503fp/r503fp.ino:298-303 | on every line the loop can pass on, both verifiers agree but for lines below 24 bytes |
| SensorLink.AdvanceCounter | pcside/daemon/src/sensor.rs:69-75 | adds one below the ceiling, refuses from it on |
| SensorLink.R503.NextLine | pcside/daemon/src/sensor.rs:260-297 | the read loop returns and leaves what the stream model says; the buffer never exceeds 4352 bytes |
| SensorLink.ReadLineTakesFirst | pcside/daemon/src/sensor.rs:260-297 | one call takes the first line off the stream however it is cut, or loses nothing |
| SensorLink.ChunksDoNotMatter | pcside/daemon/src/sensor.rs:260-297 | however the bytes are cut and timed, repeated calls yield exactly the stream's lines |
| SensorLink.TooLongExactly | pcside/daemon/src/sensor.rs:260-297 | the buffer is given up exactly when more than 4096 bytes hold no line |
| SensorLink.CheckLineExactly | pcside/daemon/src/sensor.rs:394-424 | a line counts exactly if, canonicalized, it is the encoder's output for this counter and sequence number |
| SensorLink.RefusedLineExactly | pcside/daemon/src/sensor.rs:394-424 | which error each other line brings |
| SensorLink.FinalExactly | pcside/daemon/src/sensor.rs:427-435 | a reply ends with a body that starts with OK or ERR |
| SensorLink.R503.ExecuteFramed | pcside/daemon/src/sensor.rs:353-437 | the next counter is on disk before anything is written; exhausted or unsaved means nothing changes; a failing write leaves any prefix of the frame on the wire; otherwise the frame and the reply loop |
| SensorLink.R503.AwaitReply | pcside/daemon/src/sensor.rs:394-436 | the reply loop checks framing, tag, counter and sequence of every line, in that order |
| Exchange.HonestExchange | pcside/daemon/src/sensor.rs:394-436 | if the port delivers what the Nano prints, in any chunks, the first body starting with OK or ERR is returned, and each earlier one reached the callback, without its PROGRESS or marked unhandled |
| Exchange.NoFinalTimesOut | pcside/daemon/src/sensor.rs:394-436 | without such a body the command times out, after every line reached the callback |
| Refinement.AwaitIsHearing | pcside/daemon/src/sensor.rs:394-436 | the reply loop, on any input, is the channel model's host hearing the same lines |
| Channel.ProcessEffect | firmware/r503fp/r503fp.ino:288-374 | a line does nothing to a paired Nano, or a save of an admitted counter cut somewhere, or a save and a dispatch |
| Channel.NanoCounter | firmware/r503fp/r503fp.ino:319-341 | across any line the stored counter never falls, and a dispatch leaves the command's counter stored |
| Channel.AtMostOnce | firmware/r503fp/r503fp.ino:288-374 | in every run, with any lines delivered and power lost anywhere, dispatched counters strictly increase |
| ChannelSafety.HostInvAlways | pcside/daemon/src/sensor.rs:363-379 | with crashes, reopens, a second sender and forward resyncs, wire counters strictly increase and stay below the durable next one |
| ChannelSafety.CommandsAreAuthentic | firmware/r503fp/r503fp.ino:298-341 | every dispatched command is one the host sent, each at most once |
| ChannelSafety.ResponseIntegrity | pcside/daemon/src/sensor.rs:394-436 | every returned body is the first line starting with OK or ERR that the Nano printed for that very send, and its progress texts are the lines before it, in order |
| ChannelAgreement.CountersAgree | pcside/daemon/src/sensor.rs:363-392 | the next counter always exceeds what the Nano stored, both stay within the ceiling, and a command about to be sent is above the Nano's counter |
| ChannelAgreement.NextCommandRuns | firmware/r503fp/r503fp.ino:319-374 | so the next command, delivered, is dispatched and answered by frames, whatever happened before |
| ChannelAgreement.FirstCommandBegins | pcside/daemon/src/sensor.rs:363-381 | after any pairing, a run in which every assumption holds reaches such a send |
| ChannelAgreement.UnpairIsReal | pcside/daemon/src/pairing.rs:596-675 | when the unpair tool removes the host key, the Nano is unpaired exactly if the verified reply to its command came first or the status line it went by was true |
| ChannelAgreement.ForgedStatusRemovesKey | pcside/daemon/src/pairing.rs:614-620 | a run in which one forged status line removes the key while the Nano stays paired |
| Pairing.StatusTextParses | pcside/daemon/src/pairing.rs:154-179 | the tools' parser reads from the Nano's own status line its true pairing and counter |
| Pairing.StatusExactly | pcside/daemon/src/pairing.rs:154-179 | a line is a status exactly if it has "OK " and the last words for all four fields are in range; paired exactly if that value is "true" |
| Pairing.LooseExactly | pcside/daemon/src/pairing.rs:166-167 | the numbers it reads: any zeros before the digits, a plus sign before those, nothing else |
| Pairing.BlanksSeparate | pcside/daemon/src/pairing.rs:162 | words are what stands between any of the six ASCII blanks |
| Pairing.ResyncTargetExactly | pcside/daemon/src/pairing.rs:497-505 | the report plus one, refused exactly where the next command could not be sent |
| ChannelRuns.UnpairCompletes | pcside/daemon/src/pairing.rs:596-675 | from any pairing, the tool and an honest Nano reach the end: Nano wiped, key removed, one command sent |
| ChannelRuns.ToolPassesOver | pcside/daemon/src/pairing.rs:108-116 | blank and PROGRESS lines are passed over at each of the tool's reads |
| ChannelRuns.ToolGivesUp | pcside/daemon/src/pairing.rs:614-672 | any other line that is not what it waits for ends it, with the key where it was |
| ChannelLimits.StuckExactly | firmware/r503fp/r503fp.ino:319-336 | a given command, unpair for one, can be dispatched under some counter exactly while the stored one is at least two below the ceiling |
| ChannelLimits.StuckForever | firmware/r503fp/r503fp.ino:319-336 | from then on no run dispatches anything, and the Nano stays paired |
| ChannelLimits.FirstSaveCanStick | firmware/r503fp/r503fp.ino:319-341 | a run from pairing, one power cut in its first save, after which that is so |
| ChannelLimits.LostStateRefused | pcside/daemon/src/sensor_actor.rs:77-89 | the fall-back counter 1 is refused as a replay exactly when the Nano has stored any counter |
| ChannelLimits.ResyncExact | pcside/daemon/src/pairing.rs:497-579 | after a resync the next command is dispatched exactly when the report was not below the Nano's counter, and the host has not gone backward exactly when it was at least its last used one |
| ChannelLimits.ResyncRefused | pcside/daemon/src/pairing.rs:553-579 | no status, an unpaired one or a reserved counter changes nothing |
| ChannelLimits.ReusedCounterConfuses | pcside/daemon/src/pairing.rs:517-579 | from any reachable state in which a counter is reused, the held-back old frame runs and its reply is returned as the new command's |
| ChannelLimits.ResyncBreaksIntegrity | pcside/daemon/src/pairing.rs:517-579 | a run, with a resync that reports the Nano's true counter, that ends so |
| Worker.Actor.Serve | pcside/daemon/src/sensor_actor.rs:142-239 | one turn of the worker sends exactly one reply, as the service model says |
| Worker.Actor.HandleRequest | pcside/daemon/src/sensor_actor.rs:268-371 | replies unless the failure is fatal and the request may be retried; enroll always replies |
| Worker.ServiceBounds | pcside/daemon/src/sensor_actor.rs:142-239 | for every failure pattern: at most two runs and eight open attempts, enroll at most one run, and what each reply says happened |
| Worker.KeptOpenExactly | pcside/daemon/src/sensor_actor.rs:208-236 | the port stays open exactly after a run that did not fail fatally |
| Worker.FourAttempts | pcside/daemon/src/sensor_actor.rs:142-180 | a closed sensor's request is run exactly if one of four open attempts succeeds, and otherwise told of the fourth |
| Worker.VerifyTask | pcside/daemon/src/dbus_iface.rs:618-716 | whatever others are served in between: at most six requests, twelve runs and forty-eight opens of its own; match exactly on an expected slot at the threshold; nothing exactly when stopped |
| Worker.MatchExactly | pcside/daemon/src/dbus_iface.rs:638-714 | match is decided on nothing else, and there is no sixth retry |
| Worker.StatusExactly | pcside/daemon/src/dbus_iface.rs:638-714 | which status each reply leads to, for every reply, retry count and time |
| Storage.Registry.StoreSlot | pcside/daemon/src/storage.rs:133-149 | sets one row, in memory even when the save fails |
| Storage.Registry.DropFinger | pcside/daemon/src/storage.rs:151-176 | removes one row, and the user with their last row |
| Storage.Registry.AllocateSlot | pcside/daemon/src/storage.rs:115-131 | returns the model's lowest free slot or the full error |
| Storage.LowestIsFree | pcside/daemon/src/storage.rs:115-131 | the allocated slot is free and lowest; there is none exactly when all are used |
| Storage.SetSlotInjective | pcside/daemon/src/storage.rs:133-149 | setting a row keeps slots unique exactly when no other row holds that slot |
| Storage.RemoveFingerInjective | pcside/daemon/src/storage.rs:151-176 | removing a row keeps slots unique |
| Storage.SetThenRemove | pcside/daemon/src/storage.rs:133-176 | a new row reads back, and removing it restores the registry |
| Device.DeviceState.Start | pcside/daemon/src/dbus_iface.rs:208-214 | installs a token with the next epoch, which wraps at 2^64 |
| Device.DeviceState.EndIfOwner | pcside/daemon/src/dbus_iface.rs:219-229 | clears the slot and hints exactly for the current token |
| Device.DeviceState.TakeClaim | pcside/daemon/src/dbus_iface.rs:445-487 | an idle claim may be taken over by the same user only; hints stay |
| Device.DeviceState.DropClaim | pcside/daemon/src/dbus_iface.rs:489-512 | only the claiming sender releases, and any token goes with it; every error changes nothing |
| Device.DeviceState.HandleClientDisconnect | pcside/daemon/src/dbus_iface.rs:307-322 | a vanished claimer loses claim, token and hints; anybody else's leaving changes nothing |
| Device.DeviceState.CheckClaim | pcside/daemon/src/dbus_iface.rs:287-302 | the claiming user, unless there is none or the sender is another; DaemonClaims says whom that refuses |
| Device.DeviceState.Stop | pcside/daemon/src/dbus_iface.rs:754-775 | after the claim check, a stop clears only an action of its own kind; every error changes nothing |
| DaemonSafety.RegistryAndQueueSafe | pcside/daemon/src/dbus_iface.rs:514-910 | in every interleaving no slot is registered twice, no row's slot holds a template of anybody else's finger, at most one capture request is queued or running, and no verify retries more than five times |
| DaemonClaims.ClaimStands | pcside/daemon/src/dbus_iface.rs:445-512 | in every run the device is claimed by a user under a name exactly while such a Claim stands, unreleased and not taken over |
| DaemonClaims.CallsNeedTheClaim | pcside/daemon/src/dbus_iface.rs:287-302 | a verify, enroll, delete or stop begins, for that user, exactly if its caller made the Claim that stands; every other call changes nothing |
| DaemonClaims.ClaimsAndReleases | pcside/daemon/src/dbus_iface.rs:445-512 | whose Claim, Release and disconnect take effect, what that is, and that all others change nothing |
| DaemonClaims.StopsOnlyItsKind | pcside/daemon/src/dbus_iface.rs:760-774 | a stop takes away the token of an action of its own kind only |
| DaemonTokens.TokensUsedOnce | pcside/daemon/src/dbus_iface.rs:205-229 | up to 2^64 starts, a token leaves the slot at most once, and a task whose token was removed announces no terminal status |
| DaemonVerdicts.MatchIsSound | pcside/daemon/src/dbus_iface.rs:514-745 | when verify-match goes out, its VerifyStart passed the claim check as a user whose finger, the one asked for or any, had the slot when the token was minted; nobody else has the slot now and no template there is another finger's |
| DaemonVerdicts.AnswerDecides | pcside/daemon/src/dbus_iface.rs:570-650 | a slot from the sensor is a match exactly if the finger asked for, or any, was registered there when the token was minted and the confidence suffices |
| DaemonVerdicts.RegisteredFingerMatches | pcside/daemon/src/dbus_iface.rs:638-745 | and then the task announces that match at its next step if it still owns its token |
| DaemonVerdicts.VerifyNeedsAFinger | pcside/daemon/src/dbus_iface.rs:562-588 | a verify goes on exactly if such a finger was registered, and otherwise frees the device at once |
| DaemonVerdicts.StoppedVerifyAsksNoMore | pcside/daemon/src/dbus_iface.rs:618-622 | a verify whose token is gone asks the sensor no more |
| DaemonVerdicts.TellsOnce | pcside/daemon/src/dbus_iface.rs:739-745 | an announcement due is made once |
| DaemonVerdicts.AnswerFollowsDecide | pcside/daemon/src/dbus_iface.rs:638-714 | every reply leads to what the status rule says, a retry counting one more |
| DaemonVerdicts.AtMostSixRequests | pcside/daemon/src/dbus_iface.rs:604-716 | in every run no task puts more than six capture requests before the worker, an enroll no more than one |
| DaemonRegistry.EveryRowIsEarned | pcside/daemon/src/dbus_iface.rs:777-910 | in every run a row changes only by an enroll of that finger for the claiming user whose template the sensor stored at that slot, or by a delete the user was asked for once the sensor cleared it |
| DaemonRegistry.EnrolledFingerIsStored | pcside/daemon/src/dbus_iface.rs:898-910 | a stored template whose task still owns its token is registered at its slot |
| DaemonRegistry.DeleteLeavesNoneOut | pcside/daemon/src/dbus_iface.rs:76-120 | when a delete of all fingers ends, each listed one has lost its row or the sensor refused it |
| DaemonActions.OneActionAtATime | pcside/daemon/src/dbus_iface.rs:205-285 | in every interleaving, of two processes between mint and end one had its token removed from outside |
| DaemonRaces.OneDeleteAtATime | pcside/daemon/src/dbus_iface.rs:268-285 | if no delete's token is ever removed from outside, at most one delete is between mint and end |
| DaemonRaces.SecondDeleteExactly | pcside/daemon/src/dbus_iface.rs:276-285 | beside an unfinished delete another can begin exactly when the action slot is empty, and then the first one's token was removed from outside |
| DaemonRaces.DeletesOverlap | pcside/daemon/src/dbus_iface.rs:489-512 | a run in which Release lets two deletes of one finger wait for the sensor side by side |
| DaemonTemplates.RowsKeepTemplates | pcside/daemon/src/dbus_iface.rs:71-120 | in every run of tidy steps in which deletes keep their tokens, each registered finger's template is in the sensor unless a delete is about to drop its row |
| DaemonRaces.OrphanDeleteLosesARow | pcside/daemon/src/dbus_iface.rs:76-120 | without the tokens it fails: an orphaned delete wipes the template another user has since enrolled at that slot |
| DaemonRaces.StaleSlotLosesARow | pcside/daemon/src/dbus_iface.rs:412-443 | a delete of one finger looks its slot up before the gate, and can wipe another user's template there |
| DaemonRaces.LateRowLosesARow | pcside/daemon/src/dbus_iface.rs:898-910 | an enroll registers its row after giving its token back, and a delete in between leaves the row without template |
| DaemonRaces.LostReplyLosesARow | pcside/daemon/src/dbus_iface.rs:76-120 | a delete whose reply is lost leaves the row of a template that is gone |
| SealedBlob.ValidatePcrs | pcside/daemon/src/tpm.rs:363-386 | the sort-and-dedup test accepts exactly lists of 1 to 24 distinct indices below 24 |
| SealedBlob.SerializeBlob | pcside/daemon/src/tpm.rs:585-606 | appends magic, list and length-prefixed fields as the format says |
| SealedBlob.DeserializeBlob | pcside/daemon/src/tpm.rs:608-681 | the offset-advancing reader accepts, rejects or panics as the format model says |
| SealedBlob.DeserializeExact | pcside/daemon/src/tpm.rs:608-681 | accepted files are exactly the writer's output for valid blobs, and the version-2 spelling of the default policy |
| SealedBlob.BlobRoundTrip | pcside/daemon/src/tpm.rs:585-681 | write then read returns every valid policy and fields |
| SealedBlob.RewritesItself | pcside/daemon/src/tpm.rs:585-681 | an accepted file is rewritten as it was exactly unless it is version 2 listing just [7] |
| SealedBlob.PanicExactly | pcside/daemon/src/tpm.rs:620-643 | the reader panics exactly on a version-2 file ending within four bytes of a valid list |
| SealedBlob.FileFormat | pcside/daemon/src/tpm.rs:585-681 | the file byte for byte, which is what is written and what is read back |

## Left out

- ChannelSafety.ResponseIntegrity: assumes fewer than 2^32 printed lines per command, because the 32-bit sequence number wraps there and an early line could be replayed as a late one.
- ChannelAgreement.CountersAgree: assumes interrupted saves go over tear-safe cells, which is exact for one save, and resyncs go forward; ChannelLimits has the runs without.
- NanoBoard.Board.Dispatch: what a sensor verb's handler prints is any given text, because the sensor and its library are foreign code.
- DaemonTemplates.RowsKeepTemplates: speaks of runs with at most 2^64 starts, after which epochs repeat.
- DaemonTokens.TokensUsedOnce: speaks of task announcements; the synchronous "sensor flash full" signal is sent before its token is cleared and can follow a stop.
- Exchange.HonestExchange: takes printable bodies of at most 92 bytes, which covers every line the firmware prints; longer ones may not be framed at all.
- Sensor handlers (info, count, enroll, verify, delete, clear) and the wake pin: any printed text for the firmware, and the daemon's sensor clears or writes the asked slot or does nothing.
- Power loss during a handler's printing is the network dropping the rest of the text; power loss during pairing is modelled on the unpaired Nano, before the channel's runs begin.
- Serial opening, DTR reset, ping synchronisation and wall-clock deadlines: a deadline is an event of the port.
- Lossy UTF-8 decoding is a parameter; only its identity on printable ASCII is ever used.
- `state.json` is one cell replaced atomically; JSON, file modes, fsync and rename are the operating system's.
- The unframed execute path, the pairing tool's side of a pairing, reflash and reseal: unauthenticated bootstrap.
- D-Bus plumbing, polkit, name lookup, PROGRESS hints and the finger-present and finger-needed properties in the interleaved model.
- Checks of finger names, and whitespace other than ASCII in status lines.
- TPM sessions, sealing and PCR reads; parsing a PCR list from text; 32-bit hosts, where the blob reader's length sums could overflow.
- Cryptographic strength of SipHash, constant-time comparison and zeroizing.
