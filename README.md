# Delay-detection controller (teensytap `delaydetect.py`)

A Dafny model of the host-side controller of the delay-detection
experiment. The program talks to a Teensy microcontroller over a serial port.
It validates the numeric entries of its form. It sends the device
single-byte opcodes (STOP 55, START 77, tapping configuration 88,
delay-detection configuration 66) and configuration payloads packed as 32-bit
integers. It builds a balanced block of trial delays. It keeps two flags,
`capturing` and `running`, in a global dictionary, and derives from them
whether the "start block" and "abort" buttons are enabled.

Files and modules:

- `wrappers.dfy` (`Wrappers`): `Option` and `Result`.
- `text.dfy` (`Text`): the Python string operations the controller relies on
  (`str.strip`, `str.isdigit`, `int`, `str.find`) and `check_and_convert_int`.
- `protocol.dfy` (`Protocol`): opcodes, `struct.pack` of `'i'` fields in a
  given byte order, and a reader for the resulting byte stream, which shows
  that what is written is unambiguous.
- `plan.dfy` (`TrialPlan`): the block built by `go`, with each
  `random.shuffle` as an arbitrary permutation.
- `controller.dfy` (`DelayDetect`): the validation loops, the byte effects of
  `send_config` and `run_one_trial`, and the class `Controller`. The class has
  the flags, the bytes written to the port (`sent`), the stored block
  (`trials`) and the two button states. Its methods are `openserial`,
  `listen`, `update_enabled`, `send_config`, `run_one_trial`, `single_trial`,
  `go` and `abort`.

Inputs from outside the program become parameters:
- whether `serial.Serial` succeeds (`OpenSerial(portOpens)`);
- the line `readline` returned (`Listen(line)`; empty means nothing arrived);
- the widget values (`TapForm`, and `delay1`/`delay2`);
- the host's native byte order (`Controller.order`).

Each method's outcome is `Done`, `Rejected(entry)` (the source returns
`False` after an error dialog that names the entry), or `Raised(error)` for
a Python exception. Three exceptions are modelled:
- `KeyError` on `config["comm"]` when no port was ever opened;
- `struct.error` for a value outside the 32-bit range;
- `KeyError` on the widgets `send_config` reads, as written;
- `TypeError` in `go` as written.

Points where the code is easy to misread:

- Payloads are packed with `'7i'` and `'2i'`, which have no `!` prefix. So the
  byte order is the host's native order, not big-endian. The model carries
  the byte order as a parameter.
- The block goes out as a tapping configuration (opcode 88) from
  `send_config`. `run_one_trial`, the only sender of opcode 66, is never
  called.
- There is no response recording, per-trial log or trial advance:
  `respond_first` and `respond_second` are empty. The state is two booleans;
  `RunningAfterFailedReopen` shows that they can reach `running` set while
  `capturing` is clear.
- A value that passes validation but does not fit in 32 bits makes
  `struct.pack` raise. This happens after STOP and the opcode are already on
  the wire (`WriteConfigEffect`).
- A failed `openserial` clears `capturing` without calling `update_enabled`,
  so the buttons keep their previous state.

## Model

| member | source | states |
|---|---|---|
| Text.Strip | delaydetect.py:164 | the result is the slice of the text that starts right after its leading whitespace |
| Text.StripMeaning | delaydetect.py:164 | the stripped text neither starts nor ends with whitespace, and every character of the line outside it is whitespace |
| Text.StripPadded | delaydetect.py:164 | stripping whitespace + core + whitespace gives the core, when the core has non-blank ends |
| Text.CheckAndConvertInt | delaydetect.py:158-170 | None when the key is absent; otherwise a value exactly when the stripped text is a non-empty run of digits, and then the value that text spells |
| Text.CheckAndConvertIntAcceptsPadded | delaydetect.py:158-170 | whitespace, any leading zeros, the decimal form of n, then whitespace is read as n, for every n |
| Text.CheckAndConvertIntExample | delaydetect.py:164-170 | " 007 " is read as 7 |
| Text.CheckAndConvertIntRejectsNonDigit | delaydetect.py:166-168 | text with any character that is neither a digit nor whitespace is refused |
| Text.ParseDecimalOfDecimal | delaydetect.py:170 | `int` of the decimal form of n is n |
| Text.DecimalOfParseDecimal | delaydetect.py:166-170 | a digit string without a leading zero is the decimal form of its value, so `int` is injective on canonical digit strings |
| Text.ParseDecimalLeadingZeros | delaydetect.py:170 | leading zeros do not change the value `int` gives |
| Text.Find | delaydetect.py:146 | `str.find`: -1 exactly when the text does not occur; otherwise the first index where it occurs |
| Text.FindIgnoresStrip | delaydetect.py:142-146 | a text with non-blank ends is found in the stripped line exactly when it is found in the raw line |
| Protocol.Decode32OfEncode32 | delaydetect.py:217-224 | every 32-bit value packed as an `'i'` field in either byte order reads back as itself |
| Protocol.Encode32OfDecode32 | delaydetect.py:274-276 | every 4-byte group is the packing of exactly one 32-bit value, so packing is a bijection |
| Protocol.UnpackOfPack | delaydetect.py:217-224 | `struct.unpack` of `struct.pack` of in-range integers gives them back, in order |
| Protocol.PackField | delaydetect.py:217-224 | the k-th integer occupies bytes 4k to 4k+3 of the packed payload |
| Protocol.DecodeFirstOfEncode | delaydetect.py:212-224 | an opcode with its payload is read back as that message from the head of any stream |
| Protocol.DecodeAllOfEncodeAll | delaydetect.py:269-276 | bytes written as a sequence of messages split back into exactly those messages, in order |
| Protocol.DecodeStopThen | delaydetect.py:212-214 | STOP followed by a configuration reads back as exactly the two messages Stop and that configuration |
| TrialPlan.Shuffle | delaydetect.py:322-323 | the shuffled copy is a permutation of the delays |
| TrialPlan.BuildPlan | delaydetect.py:319-326 | the plan has |delays| x reps entries, each consecutive pass of |delays| entries is a permutation of the delays, and each value occurs reps times as often as in the delays |
| TrialPlan.AppendPass | delaydetect.py:321-324 | appending one shuffled pass keeps every pass a permutation and raises every count by one pass |
| TrialPlan.DistinctOccursOnce | delaydetect.py:19 | in a list without repeats each member occurs exactly once |
| TrialPlan.BalancedFromCounts | delaydetect.py:19-22 | with distinct delays, each delay occurs exactly reps times and no other value occurs |
| TrialPlan.DelaysDistinct | delaydetect.py:19 | the configured delays are pairwise different |
| TrialPlan.BuildBlock | delaydetect.py:319-326 | the block has 90 trials; each of the 10 passes is a permutation of the 9 delays; each delay occurs exactly 10 times; nothing else occurs |
| DelayDetect.ValidateFieldsMeaning | delaydetect.py:202-205 | validation succeeds exactly when every entry converts, yielding each entry's value in key order; otherwise it names the first entry in key order that does not convert |
| DelayDetect.ConvertFields | delaydetect.py:261-264 | the loop that converts the entries in order and returns at the first failure computes exactly that validation |
| DelayDetect.ValidateFieldsOfDecimals | delaydetect.py:202-205 | entries holding the decimal forms of any values validate to exactly those values |
| DelayDetect.SendConfigDoneNeedsPort | delaydetect.py:212 | send_config can only succeed once a port has been opened |
| DelayDetect.SendConfigRejectsFirst | delaydetect.py:202-205 | send_config refuses exactly when some entry fails; it then names the first failing entry in the order fb.delay, interval, nclicks, ncontinuation, predelay, and writes nothing |
| DelayDetect.WriteConfigIsStopThenMessage | delaydetect.py:211-224 | a successful configuration write is STOP, the opcode, then the payload, which unpacks to the configured integers |
| DelayDetect.SendConfigWritesStopThenConfig | delaydetect.py:211-224 | a successful send_config writes 30 bytes: STOP, 88, then feedback, feedback delay, metronome, interval, pre-delay clicks, clicks, continuation clicks; they read back as the messages Stop and TapConfig |
| DelayDetect.RunOneTrialWritesStopThenDelays | delaydetect.py:257-276 | a successful run_one_trial writes 10 bytes: STOP, 66, then delay1 and delay2 as converted from their entries; they read back as Stop and DelayConfig |
| DelayDetect.RunOneTrialOfDecimals | delaydetect.py:254-276 | entries holding the decimal forms of any in-range delays are sent as exactly [55, 66] followed by the packed delays |
| DelayDetect.CompletionDetectedIffMarkerInLine | delaydetect.py:142-147 | listen sees a completed trial exactly when "Trial completed at" occurs anywhere in the received line |
| DelayDetect.RunningAfterFailedReopen | delaydetect.py:61-79 | after a port opens, a trial starts and a re-open fails, running is set, capturing is clear and abort is still enabled |
| DelayDetect.Controller.constructor | delaydetect.py:464-467 | start-up state: nothing captured, running or written, with both buttons disabled |
| DelayDetect.Controller.UpdateEnabled | delaydetect.py:176-179 | go is enabled iff capturing, and abort iff capturing and running |
| DelayDetect.Controller.Write | delaydetect.py:212 | a write appends its bytes to the port, or raises KeyError and appends nothing when no port was ever opened |
| DelayDetect.Controller.OpenSerial | delaydetect.py:61-79 | success sets capturing and updates the buttons; failure clears capturing and leaves the buttons as they were |
| DelayDetect.Controller.Listen | delaydetect.py:133-153 | reads only while capturing; a line containing the marker clears running and updates the buttons; any other line changes nothing |
| DelayDetect.Controller.WriteConfig | delaydetect.py:212-224 | writes STOP, the opcode and the packed payload; it writes nothing without a port, and only STOP and the opcode when a value is out of range |
| DelayDetect.Controller.SendConfig | delaydetect.py:186-239 | the outcome and the bytes appended are those of the send_config effect, and no flag changes |
| DelayDetect.Controller.RunOneTrial | delaydetect.py:247-280 | the outcome and the bytes appended are those of the run_one_trial effect |
| DelayDetect.Controller.ConfigureAndStart | delaydetect.py:289-294 | START is appended and running set exactly when send_config succeeded |
| DelayDetect.Controller.SingleTrial | delaydetect.py:286-294 | running is cleared first; START follows the configuration and running is set exactly when send_config succeeded; otherwise no START is sent and running stays clear |
| DelayDetect.Controller.Go | delaydetect.py:311-336 | as single_trial, and the stored block has 90 trials, each pass a permutation of the delays, each delay 10 times |
| DelayDetect.Controller.SingleTrialAsWritten | delaydetect.py:186-193 | as written, single_trial clears running, updates the buttons and raises KeyError for "auditoryfb" without writing a byte |
| DelayDetect.Controller.GoAsWritten | delaydetect.py:315-323 | as written, go clears running and raises TypeError without storing a block or writing a byte |
| DelayDetect.Controller.Abort | delaydetect.py:341-344 | with a port, exactly one STOP byte is appended and running is cleared whatever the prior state, so a second abort changes no flag; without a port it raises and changes nothing |

## Findings

| source | as written | input that shows it | evidently intended | confidence | as-written member | corrected member |
|---|---|---|---|---|---|---|
| delaydetect.py:321-323 | `for _ in N_REPETITIONS` iterates over the int 10, which raises TypeError. `random` is also never imported. | any press of "start block" | `for _ in range(N_REPETITIONS)` with `import random`, giving a balanced block of 90 trials | not executed; high | DelayDetect.Controller.GoAsWritten | DelayDetect.Controller.Go |
| delaydetect.py:193 | `send_config` reads `config["auditoryfb"]` and six more widgets (lines 193-199) that `build_gui` (lines 349-458) never registers, so it raises KeyError on every call, before any byte is written | any press of "single trial" | the seven tapping widgets registered in `build_gui`, so `send_config` validates and sends the form | not executed; high | DelayDetect.Controller.SingleTrialAsWritten | DelayDetect.Controller.SingleTrial |

## Left out

- gui.py is not part of this model. It opens a port and echoes raw lines to a text widget, with no protocol or state.
- Tk widget construction and event wiring are not modelled: `build_gui`, `error_message`, `output`, `on_closing` and the `while keep_going` loop. Widget values are inputs instead.
- The seven tapping widgets that `build_gui` never registers (see Findings) are assumed to exist in `SendConfig`, `SingleTrial` and `Go`, which take their values as a `TapForm`; `SingleTrialAsWritten` records the KeyError the code as written raises.
- The two check-box values (`auditory.feedback`, `metronome`) are modelled as integers and are not validated, as in the source.
- Port discovery and browsing (`guess_serial`, `browse_serial`) are left out: they glob the filesystem and open file dialogs.
- Real serial I/O is left out. Opening a port is an input that succeeds or fails. A received line is an input string, and ASCII decoding and its errors are not modelled.
- `time.sleep(1)` after each configuration is wall-clock timing. It is not modelled.
- Output-file handling is left out: the directory and timestamped file name created in `send_config` (lines 229-237), and the appends in `listen` (lines 150-153). These are filesystem and clock effects.
- TrialPlan.Shuffle: any permutation is allowed. The uniform distribution of `random.shuffle` is not modelled.
- `respond_first` and `respond_second` are empty and have nothing to model.
- Text.IsSpace: covers the whitespace `str.strip` removes in the Latin-1 range only. Other Unicode whitespace is not modelled.
- Text.IsDigits: covers ASCII digits only. Python's `isdigit` also accepts other Unicode digits. Some of these, such as superscripts, make `int` raise.
- Protocol.Encode32: assumes the native size of `'i'` is 4 bytes with no padding between fields, as on all mainstream hosts.
- DelayDetect.ConvertFields: collects the converted values in a sequence in key order. The source writes them back into the `trialinfo` dictionary in place. Each key is read once, so the values are the same.
- Text.CheckAndConvertInt: does not model the limit of 4300 digits that Python 3.11 and later (and the 3.7.14+ security releases) put on `int` of a string; a longer digit string passes `isdigit` at line 166 and then raises ValueError at line 170, where the model returns its value.
- `print(trialinfo)` at line 207 writes to the console; console output is not modelled.
- Exceptions raised inside Tk callbacks are reported by Tk, and the program goes on. The model stops the operation at the raise and returns `Raised`.
