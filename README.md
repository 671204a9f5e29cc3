# GasStationDisplay in Dafny

This project models the decision logic of GasStationDisplay. The system has two
PyQt programs.

- **The gas-station display** (`Display.py`) reads JSON commands from a fuel
  dispenser over a serial port. It shows price, volume and amount in a frameless
  window.
- **The media player** (`MediaPlayer.py`) plays videos. It copies them from any
  USB disk that is plugged in.

Both programs are configured through option objects (`Settings.py`). The
display uses the command parsers in `Parser.py`.

The model works over values. The JSON values the programs handle make up the
datatype `PyValues.Json`. Python's `in`, indexing, truthiness, `== 1` and
`float()` are written out per kind of value, and each yields `None` where Python
raises. The code that cannot be seen becomes a parameter:

- `bytes.decode` and `json.loads` (`Parser.Decoder`);
- the `%` formatting operator (`Display.Formatter`);
- `float()` on strings (`Settings.FloatParser`);
- `str()`;
- directory listings, `os.path.isdir`, the home directory;
- the enumerated serial ports, the mount points;
- the outcomes of the serial port's `open` and `read` (`Display.Port`).

Objects whose fields the source updates in place are Dafny classes:

- `Settings.Option`: a StrOption, ComboBoxOption or WidgetPosition, told apart by
  `Kind`;
- `Display.Port`;
- `Display.GasStationDisplay`;
- `MediaPlayer.MediaPlayer`.

The worker thread is a sequential loop over the abstract port. Its invariant
`Consistent()` says three things:

- every buffer read holds at most 1000 bytes;
- the commands handed to `onCommand` are exactly those the selected parser
  makes of the buffers, in order;
- the three display strings are what `onCommand` makes of those commands.

The worker runs the corrected, all-or-nothing `onCommand` (see Findings). Under
that update, `ReplayShowsOneCommand` shows that the display never mixes fields of
two commands.

`WorkThread` also returns a ghost log of what the thread did, as a sequence of
`WorkEvent`s. These are the reads of `Terminate`, the open attempts, the cycles of
the inner loop, the handler's close and the final close. `WorkRun` says the log
follows the thread's control flow from start to end. `WorkRunRecovers` then reads
off the recovery rule: after a failed cycle the port is closed and `Terminate` is
read again, and while it is false a new open follows.

The log is tied to the port. Its open attempts, in order, are the port's own
open attempts with the outcomes the environment gives (`Port.Outcomes`). Each
cycle that the inner loop ran without failing satisfies `!CycleFails`. A loop
that failed stopped at the first cycle for which `CycleFails` holds: its first
read raised, or its buffer parsed into a command that `onCommand` raises on.

The buffers are tied to the port as well. WorkThread also returns the first read
of every cycle it ran. Those cycles took every read the thread made, back to back
(`ReadChain`). The buffer log grew by exactly the buffers they assembled, in read
order (`CycleBuffers`). The i-th cycle in the log failed iff `CycleFails` holds at
its first read (`CyclesMatch`).

Files:

- `wrappers.dfy`: `Option`.
- `values.dfy`: JSON values and the Python built-ins on them.
- `parser.dfy`: `Parser.py`.
- `settings.dfy`: `Settings.py`.
- `file_names.dfy`: the extension filter shared by both programs.
- `launch.dfy`: the work-mode rule shared by both programs.
- `display.dfy`: `Display.py`.
- `media_player.dfy`: `MediaPlayer.py`.

## Model

| member | source | states |
|---|---|---|
| Parser.Parse | Parser.py:58-69 | Never raises. A failed UTF-8 or JSON decode gives None. For a decoded dict: CMDType is `obj['CMDType']` or None, Side and Nozzle are the stored values or -1, Params is the decoded object, Bytes is the input. A decoded number, bool or null gives None, because `in` raises on it. A decoded list or string gives a command iff none of CMDType, Side and Nozzle is in it (an element of the list, a substring of the string); that command has CMDType None and Side and Nozzle -1. When one of the keys is in it, indexing by the key raises and Parse gives None. |
| Parser.GeAnswer | Parser.py:71-77 | The reply always holds `Success: True`. It holds Side exactly when `'Side' in Params`, and Nozzle exactly when `'Nozzle' in Params`, with the command's values. It has no other keys. It is None exactly where `in` on Params raises. |
| Parser.AnswerEchoesDecodedObject | Parser.py:61-76 | Round trip. For a command that Parse returned, the reply echoes Side and Nozzle exactly when the decoded dict had them, and with the decoded values. |
| Parser.ParserIDsCoincide | Parser.py:50-90 | JSONParser.GetID and BenchParser.GetID both return the name of the metaclass, `type`, while their display names differ. |
| Parser.GetID | Parser.py:84-86 | BenchParser.GetID returns the metaclass name `type`, and so does JSONParser.GetID (Parser.py:50-52). |
| Parser.GetName | Parser.py:88-90 | The display name is the bench parser's exactly for BenchParser, and the JSON parser's exactly for JSONParser (Parser.py:54-56). |
| Parser.ParseWith | Display.py:367 | `ParserObj.Parse` for the selected class. BenchParser never yields a command. JSONParser yields exactly what Parse does. Every command carries the decoded object and the raw buffer. |
| Parser.BenchParse | Parser.py:92-93 | BenchParser.Parse returns None for every buffer. |
| Parser.BenchGeAnswer | Parser.py:95-96 | BenchParser.GeAnswer returns None for every command. |
| Settings.FirstFailure | Settings.py:144-151 | Success iff every validator succeeds on the value (so always for an empty list). Otherwise the result of the first failing validator in list order. |
| Settings.MakeComboBoxValue | Settings.py:192-196 | The entry keeps its value. A given Name is kept. A missing Name becomes `str(Value)`. |
| Settings.PositionCheck | Settings.py:317-338 | Success iff all four keys are present, all four values are numbers in [0, 100], Top+Height <= 100 and Left+Width <= 100. The boundary 100 is accepted. Every failure has ErrorCode 1. |
| Settings.PositionReportsFirstMissingKey | Settings.py:318-325 | The first missing key in the order Height, Width, Left, Top is the one reported. |
| Settings.PositionReportsFirstBadValue | Settings.py:326-333 | With all keys present, the first value that is not a number in [0, 100] is reported. The order is Width, Height, Left, Top. |
| Settings.PositionReportsSums | Settings.py:334-337 | With four valid numbers, Top+Height is tested before Left+Width, and each excess is reported with its own message. |
| Settings.DefaultPositionIsValid | Settings.py:277-282 | DEFAULT_VALUE passes WidgetPosition's check. |
| Settings.Normalized | Settings.py:354 | What WidgetPosition.SetValue stores. The keys are exactly Top, Left, Width and Height, each value is the float of the given one, any other key is dropped, and the result is still a valid rectangle. |
| Settings.Option.StrOption | Settings.py:137-142 | The value is kept even when it fails its validators. CurrentError is the validators' verdict on it. Changed is false. |
| Settings.Option.ComboBoxOption | Settings.py:201-212 | Value is None for DefaultIndex -1, else the value of the entry at DefaultIndex. CurrentIndex is DefaultIndex. CurrentError is the validators' verdict. |
| Settings.Option.WidgetPosition | Settings.py:299-315 | An invalid initial rectangle is replaced by DEFAULT_VALUE and the error is cleared. A valid one is kept. |
| Settings.Option.Check | Settings.py:86-95 | Returns the first failing validator's result, or success. A failure is stored in CurrentError. Success leaves CurrentError as it was. |
| Settings.Option.SetValue | Settings.py:153-161 | CurrentError is the check's verdict. On a rejected value, Value and Changed are unchanged and onChanged is not called. On an accepted value: Value is set (normalised for WidgetPosition, Settings.py:348-357), Changed is true, and onChanged receives the stored value once, if there is a callback. ComboBoxOption.SetValue (Settings.py:222-230) is the same. |
| Settings.Option.OnCurrentIndexChange | Settings.py:255-257 | CurrentIndex moves to the new index even when SetValue then rejects that entry's value. Otherwise it behaves as SetValue with the entry's value. |
| FileNames.FilterByExtension | Display.py:284 | Keeps exactly the names whose lower-case form ends with one of the extensions. Never longer than the listing. |
| FileNames.FilterKeepsOrder | MediaPlayer.py:273 | Listing order is kept. Filtering a concatenation gives the concatenation of the filtered parts. |
| FileNames.FilterKeepsMatchingListing | Display.py:284 | A listing whose every name matches passes through unchanged. |
| Launch.SelectWorkMode | Display.py:514-520 | Exactly one of run and settings is selected. Run is selected iff 'run' is in argv and 'settings' is not. MediaPlayer.py:284-292 is the same rule. |
| Display.GetDefault | Display.py:87-88 | The saved value when the key is present, else the default. |
| Display.CheckRequaredOption | Display.py:99-106 | The validator succeeds iff the value is not None. On None it returns ErrorCode 1 with a message naming the field. |
| Display.CheckFloatFormat | Display.py:287-292 | Success iff `Format % 1.25` does not raise. Otherwise ErrorCode 1 with a message that quotes the format. |
| Display.FirstIndex | Display.py:130 | `list.index`: the first position holding the value, or -1 exactly when the value is absent. |
| Display.SavedIndex | Display.py:127-142 | -1 iff the key is absent or the saved value is not among the choices. Otherwise the position of the value's first occurrence. |
| Display.ParserIDs | Display.py:132 | One identifier per parser class, and every one is `type`. |
| Display.SavedParserIndexIsFirstOrNone | Display.py:131-134 | Because both parser IDs coincide, the saved parser index is -1 or 0. It is 0 exactly when the saved value is `type`. |
| Display.GetFiles | Display.py:280-285 | Empty for a missing directory. Otherwise exactly the listed names with one of the extensions. |
| Display.CheckSettings | Display.py:304-305 | True iff the port value is one of the enumerated port names and the parser value is truthy. A passing check never has None as the parser. |
| Display.SelectParser | Display.py:326 | First-match lookup by ID. It finds a class iff the value is `type`, and the class found is always JSONParser. |
| Display.OnRun | Display.py:304-326 | The settings form opens (no link) iff CheckSettings fails, that is, the port is not among the enumerated ports or no parser is chosen. ParserNotRegistered (the `index` call raises) iff the check passes but the parser value is not `type`. Otherwise the link gets the chosen port, the option values, the 0.1 s timeout and JSONParser. |
| Display.DataUpdate | Display.py:348-353 | onCommand as the lock intends it (corrected). A non-DATA command, CMDType None included, changes nothing. A DATA command replaces all three strings with their formatted fields, or, when any field is missing or fails to format, changes none of them and raises. |
| Display.DataUpdateRaises | Display.py:348-353 | The corrected onCommand raises exactly when the command is DATA and one of its three fields is missing or fails to format (DataRaises), whatever the readout was. |
| Display.DataUpdateAsWritten | Display.py:348-353 | onCommand as written. A non-DATA command changes nothing and raises nothing. A DATA command raises iff one of the three fields is missing or fails to format. The price is replaced whenever it formats. The volume changes only after the price has formatted; then it is replaced when it formats and kept when it does not. The amount changes only when nothing raised. |
| Display.AsWrittenAgreesWhenFormattingSucceeds | Display.py:348-353 | The as-written update and the corrected one agree whenever every field formats, or the command is not DATA. |
| Display.AsWrittenTearsReadout | Display.py:350-353 | The counterexample for the Findings row: `{"CMDType": 1, "Price": 45.67}` replaces the price and keeps the old volume and amount as written. The corrected update keeps all three. |
| Display.Commands | Display.py:367-369 | At most one dispatched command per buffer read. |
| Display.AllFitEach | Display.py:361-364 | AllFit, the bound in the worker invariant, says exactly that every logged buffer holds at most 1000 bytes. |
| Display.LogStep | Display.py:367-369 | Logging one more buffer of at most 1000 bytes keeps AllFit, and the dispatched commands grow by that buffer's parse, or by nothing when it does not parse. |
| Display.CommandsAppend | Display.py:367-369 | Buffers are dispatched in order: the commands of two runs of buffers, one after the other, are the first run's commands followed by the second's. |
| Display.CommandsOne | Display.py:367-369 | A single buffer yields its parse, or nothing when the parser returns None. |
| Display.CommandsInBufferOrder | Display.py:367-369 | When every buffer parses, there is one command per buffer, and the i-th command handed to onCommand is the parse of the i-th buffer read. |
| Display.CommandsComeFromBuffers | Display.py:367-369 | Every command handed to onCommand is what the parser made of one of the buffers read. When every buffer parses, there is one command per buffer. |
| Display.BenchDispatchesNothing | Display.py:367-369 | With BenchParser selected, no buffer ever reaches onCommand. |
| Display.ReplayShowsOneCommand | Display.py:348-353 | After any run of commands, the readout is the initial one or the complete formatted triple of one received DATA command. |
| Display.Port.constructor | Display.py:311-318 | A new port is closed and has seen no open or read. |
| Display.Port.Open | Display.py:358 | `open()` succeeds iff the port was closed and the environment lets this attempt succeed. The port is then open. |
| Display.Port.Received | Display.py:361-364 | What `read(size)` returns on an open port. It is None iff that read raises. Otherwise it is a prefix of what arrived, of length `size` or all of it when less arrived. |
| Display.Port.Read | Display.py:361-364 | A read on the open port returns exactly Received for this attempt, so at most `size` bytes, None where pyserial raises. A closed port raises. Every read counts as one attempt. |
| Display.Port.Close | Display.py:372-375 | The port is closed afterwards. |
| Display.FirstFailing | Display.py:90-94 | The position of the first option whose validators fail. Every option before it passes. |
| Display.GasStationDisplay.constructor | Display.py:319-333 | The state onRun hands to the worker: the strings cleared, nothing read yet, and the worker invariant holding. Save starts disabled, as onSettings creates it at Display.py:425-426. |
| Display.GasStationDisplay.OnOptionChanged | Display.py:90-94 | Save is enabled iff every option passes, and never disabled. The first failing option, and only that one, gets its error recorded. No option's value changes. |
| Display.GasStationDisplay.OnOptionEdited | Display.py:90-94 | An edit is SetValue, then onOptionChanged when the value is accepted and the option has the callback. A rejected value leaves the option's value, its Changed flag and Save as they were, and records the error. An accepted value is stored and marks the option changed. Save is then enabled iff it was already, or the callback ran and every option passes. Without the callback, no other option's error changes. When the callback runs, the first option that fails (if any) shows its first failing validator's message, every other option keeps the error it had, and the edited option keeps the error SetValue recorded. Save is newly enabled only when every option passes. |
| Display.GasStationDisplay.StopRequested | Display.py:356 | Reads Terminate. It is true exactly when the countdown has run out. |
| Display.GasStationDisplay.OnCommand | Display.py:348-353 | The new readout and the raised flag are exactly the corrected DataUpdate of the old readout. |
| Display.GasStationDisplay.CycleBuffer | Display.py:360-366 | The buffer one cycle assembles. It is None iff the first read raises. It holds at most 1000 bytes and starts with what the first read returned. When the second read raises, the exception is swallowed and the buffer is the first read's bytes alone. |
| Display.GasStationDisplay.Dispatch | Display.py:367-369 | The buffer is logged and the worker invariant kept. Failed iff the parser yields a DATA command one of whose fields is missing or fails to format, that is, iff onCommand raises on it. |
| Display.GasStationDisplay.ReadAndDispatch | Display.py:360-369 | One cycle. The port is read once when the first read raises, otherwise twice. The buffer log grows by exactly the cycle's buffer, if any. Failed iff the cycle starting at this read fails (CycleFails): the first read raises, or the parser yields a command on which onCommand raises. An exception in the second read does not fail the cycle. The worker invariant is kept. |
| Display.GasStationDisplay.InnerStep | Display.py:359-369 | One pass of the inner loop. Terminate is read once. When it is true nothing is read or logged and the pass stops. Otherwise one cycle runs, and failed iff that cycle fails (CycleFails at the current read). The cycle appends exactly Logged of its first read to the buffer log, the buffer CycleBuffer assembled or nothing when the first read raised, and takes exactly CycleReads reads. A failed cycle closes the port. |
| Display.GasStationDisplay.ServeOpenPort | Display.py:359-373 | The inner loop keeps the invariant. It ends with the port open and without failure only once Terminate is read as true. When a cycle fails, the handler closes the port. It counts Terminate read as false once per cycle, adds one buffer per successful cycle, and reads exactly twice per successful cycle. The cycles that did not fail are those starting at the port's reads old, old + 2, ..., and none of them fails (CycleFails is false for each). When the loop fails, the cycle starting right after them, at read old + 2n, fails. So the loop neither gives up on a good cycle nor goes on after a bad one. The buffer log grows by exactly the buffers those cycles logged, in read order: CycleBuffers(passed), then Logged(m) of the failing cycle. |
| Display.GasStationDisplay.TryServe | Display.py:357-373 | One pass of the try block: exactly one open attempt, succeeding as the environment says. The port ends open iff the open succeeded and the inner loop stopped on Terminate. In every other case it ends closed. Terminate reads as false are counted. A failed open reads nothing. After a successful open, the cycles that ran are those of ServeOpenPort: n good cycles from the current read, then, when failed, a failing one. Stated on the pass's first reads PassFirsts: the buffer log grows by exactly CycleBuffers of them, they ran back to back over exactly the reads made (ReadChain), and the i-th of them fails iff it is the failing one (CyclesMatch with PassResults). |
| Display.OuterPassFollows | Display.py:357-373 | The events of one pass follow the control flow: a failed open, or an open followed by the inner loop's cycles and, after a failed cycle, the handler's close. The pass ends where the outer loop can read Terminate again. |
| Display.GasStationDisplay.WorkThread | Display.py:355-375 | On exit the port is closed, Terminate was read as true, and the invariant holds for everything read. The returned log is a whole run (WorkRun) with exactly as many reads of Terminate as false as the countdown allowed. The open attempts in the log are exactly the port's attempts: their outcomes in order are Serial.Outcomes(old Opens, Opens), one per call of open(). The returned firsts number the first read of every cycle the thread ran: those cycles took, back to back, every read the thread made (ReadChain), the buffer log grew by exactly the buffers they logged, in order (CycleBuffers), and the i-th cycle in the log failed iff CycleFails holds at its first read (CyclesMatch). |
| Display.GasStationDisplay.ServePass | Display.py:356-373 | One pass of the outer loop after Terminate read as false keeps the loop's invariant OuterHead: the worker invariant, the log a run up to the loop's head, its opens the port's, and its cycles tracing the reads and buffers. Terminate's countdown never grows. |
| Display.GasStationDisplay.OuterLoop | Display.py:355-373 | The outer loop ends once Terminate is read as true, with the invariant OuterHead holding over everything the thread did and the countdown run out. |
| Display.GasStationDisplay.PassOutcome | Display.py:359-373 | What ServeOpenPort states per cycle, restated on the pass's first reads: the buffers logged are CycleBuffers of them, they ran back to back from the pass's first read to its last, and exactly the last fails when the loop failed. |
| Display.OuterPassCycles | Display.py:357-373 | The cycles of one outer pass, in its event log, are PassResults: none after a failed open, else n that did not fail and, when failed, one that did. |
| Display.PassResults | Display.py:359-373 | A pass's cycle outcomes: n + 1 of them when the loop failed, n otherwise, none after a failed open, and only the n-th fails. |
| Display.CyclesEnd | Display.py:374-375 | The final read of Terminate and the final close add no cycle to the log. |
| Display.GatheredJoin | Display.py:355-375 | The buffers logged by two runs of cycles, one after the other, are those of the joined run. |
| Display.ReadChainJoin | Display.py:355-375 | Two runs of back-to-back cycles, the second starting at the read where the first stopped, form one back-to-back run. |
| Display.Port.OutcomesAt | Display.py:358 | Outcomes lists one result per open attempt, the i-th being whether attempt from + i succeeds. |
| Display.OuterPassOpens | Display.py:357-373 | One pass of the outer loop opens the port exactly once: the only open attempt among its events is the pass's, with its outcome. |
| Display.Follows | Display.py:355-375 | The control flow read backwards. An open attempt comes only after the outer loop read Terminate as false. The handler's close comes only after a failed cycle. The final close comes only after the outer loop read Terminate as true. A cycle comes only after the inner loop read Terminate as false. Nothing follows the final close. |
| Display.WorkRunRecovers | Display.py:355-375 | In every run, a failed cycle is followed by the port's close and a new outer read of Terminate. A failed open is followed by an outer read of Terminate. An outer read of false is followed by a new open attempt. After the outer loop reads Terminate as true, only the final close can follow. |
| MediaPlayer.SetDefault | MediaPlayer.py:60-61 | A missing key gets the default. Every present key keeps its value. No other key appears. |
| MediaPlayer.StripLeading | MediaPlayer.py:164 | `lstrip`: a suffix of the input, only separators removed, and it does not start with one. |
| MediaPlayer.StripTrailing | MediaPlayer.py:164 | `rstrip`: a prefix of the input, only separators removed, and it does not end with one. |
| MediaPlayer.Strip | MediaPlayer.py:164 | `strip`: neither end is a separator, and the result is never longer than the input. |
| MediaPlayer.StripIsSlice | MediaPlayer.py:164 | What `strip` returns is a slice `s[i..j]` of the input, and everything cut off before i and after j is the separator. |
| MediaPlayer.MountDir | MediaPlayer.py:162-163 | The mount point with a separator appended only when it lacks one. |
| MediaPlayer.ComposePath | MediaPlayer.py:164 | Every composed path ends with the separator. |
| MediaPlayer.ComposePathParts | MediaPlayer.py:161-164 | A composed path is the mount directory, then USBPath with separators stripped from both ends, then one separator. |
| MediaPlayer.GetMediaPaths | MediaPlayer.py:157-165 | The set of composed paths: a path is in it iff some mount point composes to it. It raises (None) iff there is a mount point and USBPath is not a string. |
| MediaPlayer.UnderDir | MediaPlayer.py:273 | Each name is prefixed with `MediaDir + sep`, in order. |
| MediaPlayer.GetMediaFiles | MediaPlayer.py:269-274 | Empty for a missing directory. Otherwise every matching name appears under `MediaDir + sep`, and nothing else. |
| MediaPlayer.MediaFilesKeepListingOrder | MediaPlayer.py:273 | Listing order is kept. The files of two concatenated listings are the concatenated files. |
| MediaPlayer.NewMediaDirs | MediaPlayer.py:170-173 | Exactly the new paths (in newDisks and not in oldDisks) that are directories, each once. |
| MediaPlayer.ReloadPlan | MediaPlayer.py:174-181 | No action for no directories. Otherwise stop, delete the current files, copy from each directory once in the given order, then start. |
| MediaPlayer.LoadedSettingsKeys | MediaPlayer.py:54-74 | After LoadSettings the keys are the loaded ones plus Screen, MediaPath, UseUSB, USBPath, DisplayPosition and SettingsPosition. |
| MediaPlayer.LoadedSettingsKeepsSaved | MediaPlayer.py:56-59 | Screen is always overwritten with the current screen size. Every other loaded value is kept. |
| MediaPlayer.LoadedSettingsDefaults | MediaPlayer.py:60-74 | Each missing key gets its default: the home media folder, True, `/MediaPlayer`, the 100x70 display rectangle, and a settings window of a quarter offset and half size. |
| MediaPlayer.MediaPlayer.constructor | MediaPlayer.py:276-292 | The settings are exactly LoadedSettings of the loaded dict and the screen size, so every guaranteed key is present. No disk has been seen. Exactly one work mode is selected, by the rule above. |
| MediaPlayer.MediaPlayer.LoadSettings | MediaPlayer.py:54-74 | The settings become the loaded dict with Screen replaced and the defaults filled in, as LoadedSettings and its lemmas state. |
| MediaPlayer.MediaPlayer.StartMediaWatch | MediaPlayer.py:120 | oldDisks becomes the composed mount paths. Where composing raises, it is left unchanged. |
| MediaPlayer.MediaPlayer.InstallMediaThreadRun | MediaPlayer.py:167-182 | A reload happens iff some newly seen path is a directory, and it is a reload over exactly those directories. Afterwards oldDisks equals the new disks whether or not a reload happened. |

## Left out

- The PyQt user interface is out of scope. This covers widgets, layouts, style
  sheets, pixmaps, `InitDisplay`, `onSettings`, window move and resize
  persistence, `SetGeometry`, `SetWidgetPosition` and `ShowCurrentError`. It is
  presentation, not decision logic.
- Threads, `Lock`, `QTimer`, `UpdateData` and `onWorkEnd`'s join are not
  modelled. `onCommand` is one update of the triple, and the worker is a
  sequential loop. `Terminate` is a countdown of how many times it is still read
  as false, so the loop is shown to end.
- pyserial, psutil and the filesystem are I/O. Their results are parameters:
  `open` and `read` outcomes indexed by attempt, ports, mount points, listings
  and `isdir`. The port timeout setters (`TIMEOUNT_COM_PORT`, 1 s for the first
  read) have no effect in the model.
- `os.mkdir`, `os.makedirs`, `shutil.copy`, `os.remove`, `LoadJSON`, `SaveJSON`
  and `UpdateJSON` are file I/O. The loaded settings file is a parameter.
- `print` output is console I/O.
- `json.loads`, `json.dumps`, `bytes.decode`, `%` formatting, `float()` on
  strings and `str()` of non-strings are foreign code given as parameters.
  GeAnswer's reply is the dict before `json.dumps(...).encode()`, because the
  serialisation is foreign.
- The media player's playback is not modelled: StopPlay, StartPlay, the actual
  copy in LoadMediaFromDisk and the deletion in DeleteCurrentMediaFiles. A
  reload is the ordered list of those actions, because their effects are Qt
  and filesystem calls.
- `str.lower()` is modelled for ASCII letters only, and the separator is the
  POSIX `/`, because there is no Unicode case table here.
- Floating point is `real`. `round` and the pixel geometry are not modelled.
- Display.LoadSettings' own defaults for DisplayPosition and SettingsPosition
  (Display.py:118-126) are not modelled. They follow the same fill-in rule that
  MediaPlayer.SetDefault states.
- The start-up lookups of the saved BaudRate, ByteSize, Parity and StopBit in
  pyserial's lists (Display.py:156, 163, 170 and 177) are not modelled. There
  `list.index` raises ValueError when the saved value is not listed, and no
  settings form is built. Those lists are pyserial constants.
- Display.GasStationDisplay.OnCommand: the worker runs the corrected,
  all-or-nothing DataUpdate, not the torn update written at Display.py:348-353.
  The as-written update is DataUpdateAsWritten, and the Findings table compares
  the two. ReadAndDispatch's failed flag and ReplayShowsOneCommand describe the
  corrected program.
- BoolOption is not modelled. It is an unvalidated flag that only the media
  player's form uses.
- Settings.Option.StrOption: its value is taken as a string, so `str(Value)` on
  a non-string initial value is not modelled.
- Settings.Option.ComboBoxOption: requires `-1 <= DefaultIndex < len(Values)`.
  Python would index from the end for a smaller index, and raise for a larger
  one. Every caller passes -1 or an index that was found.
- Settings.Option.OnCurrentIndexChange: requires a valid index. Qt's -1 for an
  emptied box, which Python would read as the last entry, is not modelled.
- Settings.Option.WidgetPosition: takes the initial rectangle as a map.
  `CheckNewValue` on a value that is not a dict would raise or search a list or
  string, and that is not modelled.
- MediaPlayer.MediaPlayer.constructor: the loaded settings are a map. A settings
  file whose top level is not a JSON object would make the Screen assignment
  raise, and that is not modelled.
- Settings.Option.SetValue: requires a dict for WidgetPosition, as the source
  annotates it. A non-dict raises there.
- MediaPlayer.NewMediaDirs: the order of `set` iteration is not specified. Any
  order satisfies the contract.
- The ghost log of WorkThread records events, not the bytes read. The bytes are
  tied to it through the cycles' first reads that WorkThread also returns.

## Findings

| source | as written | input that shows it | evidently intended | confidence | as-written member | corrected member |
|---|---|---|---|---|---|---|
| Display.py:348-353 | Inside the lock, `CurrentPrice` is assigned before the volume and the amount are formatted. A missing `Quantity` or `Amount` key, or a format that raises, therefore leaves the new price beside the previous volume and amount. The exception then escapes to the worker, which closes the port. | `{"CMDType": 1, "Price": 45.67}` with the default `%0.2f` formats | The lock makes the triple one update: all three strings change together or none does | medium, not executed | Display.DataUpdateAsWritten (shown by Display.AsWrittenTearsReadout) | Display.DataUpdate (used by Display.GasStationDisplay.OnCommand, proved by Display.ReplayShowsOneCommand) |
