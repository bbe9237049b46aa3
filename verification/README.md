# BT-ScatterNode bookkeeping and log parser, modelled in Dafny

The system is a Bluetooth LE "scatter node" for Linux/BlueZ. Each node
discovers peers whose advertised name is `BT-ScatterNode-` followed by eight
hex characters. It also advertises itself and connects to those peers. For
every peer it records whether it took the central or the peripheral side.
It then monitors the connection while logging signal strengths. A separate
log parser cuts the connection-monitoring sections out of such a log. It
then turns the measurement lines into rows `(time, from-node, to-node,
address, dBm)`.

This project models the core of that program as pure functions over
immutable maps and sequences. D-Bus calls become parameters holding the
answer BlueZ gave. Each block the program runs under `mutex_role_to_device`
is one atomic function.

- `wrappers.dfy`, `text.dfy`: `Option`, ASCII digits, and what a trailing
  Python `$` lets through (the line, or the line without one final newline).
- `dbus_types.dfy`: D-Bus values, property and interface dictionaries,
  Python truthiness, the BlueZ interface names.
- `decimal.dfy`: `str(int)` for advertisement paths, with its inverse.
- `advertisement.dfy`: the LE advertisement descriptor: constructor
  defaults, `get_properties`, `get_path`, `GetAll`.
- `device_directory.dfy`: `devices_found` and `devices_info`, the
  name-admission test, the matching-and-seen filter, the discovery signal
  handlers, and one pass of the liveness worker.
- `role_arbitration.dfy`: `role_to_device` together with
  `devices_connected`:
  - `connect_to_devices`;
  - the outbound claim, and one round of the outbound worker;
  - the inbound handlers of the monitor mode and the peripheral mode;
  - `disconnect_from_all_devices`;
  - the invariant that a peer is connected exactly when a role is held
    toward it.
- `program_steps.dfy`: the `ProgramStates` step variable:
  - the assignments of the start and stop routines, and the watchdogs;
  - the worker loop guards and the interrupt handler;
  - the five-try advertisement registration;
  - the outer retry loop of the connection-monitor modes.
- `log_lines.dfy`: each `RE_*` pattern of the log parser, written as a
  positional parser. An if-and-only-if lemma relates each parser to the
  language the pattern denotes.
- `log_parser.dfy`: the section splitter and the measurement reader.
  - The splitter is related to a reference reading of the log: the lines
    read while a section is open.
  - The reader is related to what each kind of header line does.

## Model

| member | source | states |
|---|---|---|
| Text.DollarBody | log_parser.py:12-17 | the text a trailing `$` compares against is the line itself, or the line without its one final newline |
| DBusTypes.Truthy | main.py:1279-1284 | `if properties["Connected"]` is true exactly for a true flag, a non-empty string, a non-zero number |
| Decimal.NatToDecimal | bluetooth_for_linux/bluetooth_advertisement.py:9 | `str(n)` is a non-empty run of digits without a leading zero; a positive number does not start with '0' |
| Decimal.IntToString | bluetooth_for_linux/bluetooth_advertisement.py:9 | `str(i)` starts with '-' exactly when `i` is negative |
| Decimal.DecimalRoundTrip | bluetooth_for_linux/bluetooth_advertisement.py:53 | reading back `str(n)` gives `n` |
| Decimal.DecimalInjective | bluetooth_for_linux/bluetooth_advertisement.py:53 | distinct numbers have distinct decimal spellings |
| Advertisement.New | bluetooth_for_linux/bluetooth_advertisement.py:8-20 | path is `PATH_BASE + str(index)`; type and local name as given; every optional field unset; discoverable; no tx-power |
| Advertisement.Properties | bluetooth_for_linux/bluetooth_advertisement.py:22-45 | `Type` is always emitted; every other key is present exactly when its field is set; `ServiceData` only together with `ManufacturerData`; `Discoverable` only when true; each value has its D-Bus signature |
| Advertisement.GetProperties | bluetooth_for_linux/bluetooth_advertisement.py:47 | the dictionary is filed under the advertising-manager interface and nothing else |
| Advertisement.GetPath | bluetooth_for_linux/bluetooth_advertisement.py:49-53 | a non-positive id gives the descriptor's own path; a positive id gives `PATH_BASE` followed by digits, the first not '0', that read back as the id |
| Advertisement.GetAll | bluetooth_for_linux/bluetooth_advertisement.py:58-63 | InvalidArgs exactly when the interface is not the advertisement interface; otherwise the property dictionary |
| Advertisement.DefaultsEmit | bluetooth_for_linux/bluetooth_advertisement.py:8-45 | a fresh descriptor emits exactly `Type`, `Discoverable` and, when named, `LocalName` |
| Advertisement.GetPathInjective | bluetooth_for_linux/bluetooth_advertisement.py:49-53 | two positive ids never share a path |
| Advertisement.DefaultPathAgrees | bluetooth_for_linux/bluetooth_advertisement.py:9 | the constructor's path for a positive index is what `get_path(index)` returns |
| DeviceDirectory.IsDeviceMatching | main.py:430-441 | a device matches iff it has a text `Name` equal to the prefix plus eight `[a-f0-9]` characters, optionally followed by one newline |
| DeviceDirectory.NameMatchesIff | main.py:438-441 | the positional name test accepts exactly the strings the anchored pattern accepts |
| DeviceDirectory.OwnNameAdmitted | main.py:79-83 | a node whose id is eight lower-case hex characters advertises a name of at most 29 characters that its peers admit |
| DeviceDirectory.MatchingExamples | main.py:430-441 | a correct name is admitted; a 7-character id, a foreign prefix and a missing `Name` are refused |
| DeviceDirectory.MatchingAndActive | main.py:444-460 | the result holds exactly the directory entries that are seen and matching, with their dictionaries unchanged |
| DeviceDirectory.InterfaceAdded | main.py:1183-1199 | a device interface replaces the path's entry; without one nothing changes; other paths untouched |
| DeviceDirectory.InterfaceRemoved | main.py:1202-1218 | a known path losing its device interface is deleted unless its log line raises (a `Name` without an `Address`, main.py:288-294); otherwise nothing changes; no entry is altered |
| DeviceDirectory.PropertiesChanged | main.py:1221-1244 | with the log line unable to fail: on the device interface the changed keys are written and every other old key is kept, and a new path gets the changed dictionary; other interfaces change nothing |
| DeviceDirectory.PropertiesChangedAsWritten | main.py:1221-1244 | as written: nothing changes unless the interface is the device interface and the path has a printable entry (main.py:288-294); then it agrees with the corrected handler |
| DeviceDirectory.NewPathNeverRecorded | main.py:1239-1244 | a change for a path the directory does not know is dropped as written and recorded by the corrected handler |
| DeviceDirectory.AddKnownDevices | main.py:698-721 | every managed object with a device interface is recorded with that dictionary; other entries are kept |
| DeviceDirectory.PropertiesChangedMerges | main.py:1241-1244 | two successive updates equal one update with their merge, the later value winning |
| DeviceDirectory.UpsertThenGet | main.py:1239-1244 | as written, a name and address written to a path with a printable entry are read back unchanged; for any other path the directory is unchanged |
| DeviceDirectory.AddThenRemove | main.py:1194-1218 | removing the device interface just added forgets that path and nothing else, unless the added entry has a `Name` without an `Address`, which stays |
| DeviceDirectory.ProbeSeen | main.py:476-501 | every directory path ends with a flag, true iff it was already seen or its RSSI query answered; other flags untouched; the all-seen result is true iff every directory path is seen |
| RoleArbitration.ConnectStatusOf | main.py:799-816 | `connect` returns the exception status exactly when `Device1.Connect` raised |
| RoleArbitration.ConnectEntries | main.py:213-246 | raises iff some entry's peer lacks an `Address`; otherwise every entry is connected; old entries keep their dictionaries; new ones come from the entries |
| RoleArbitration.ConnectEntriesAttempts | main.py:225-246 | only the entries before the first one without an `Address` are handled: `Connect` goes, in entry order and with its status, exactly to those whose `Connected` read false; all of them end up connected and no later entry joins |
| RoleArbitration.FirstUnaddressed | main.py:225 | the entry where `KeyError` is raised: every entry before it has an `Address`, and it has none |
| RoleArbitration.AttemptsBeforeKeyError | main.py:225-240 | the `Connect` calls are, in order, those owed to the entries before the `KeyError` |
| RoleArbitration.JoinedBeforeKeyError | main.py:225-246 | the entries before the `KeyError` are connected afterwards, and every new member of the set is one of them with its own dictionary |
| RoleArbitration.AttemptsAreOwed | main.py:234-240 | every `Connect` went to an entry whose `Connected` read false and carries its status; with no `KeyError`, every such entry got one |
| RoleArbitration.ConnectSingle | main.py:224-246 | the one-entry call records the peer and connects it iff its `Connected` read false |
| RoleArbitration.ConnectToDevices | main.py:1497-1501 | over a dictionary: raises iff some peer lacks an address; otherwise all of its keys become connected |
| RoleArbitration.ClaimStep | main.py:581-592 | only an unclaimed peer with an address is claimed; it becomes CENTRAL and connected; at most one `Connect` is issued, iff its `Connected` read false; a claimed peer or a `KeyError` leaves everything unchanged |
| RoleArbitration.InboundConnected | main.py:1342-1351 | a new peer joins the connected set; PERIPHERAL only if unclaimed; a CENTRAL role is kept; other roles untouched |
| RoleArbitration.InboundDisconnected | main.py:1353-1357 | a connected peer leaves the set and its role becomes NONE; an unconnected one changes nothing |
| RoleArbitration.MonitorInterfacesAdded | main.py:1326-1359 | with a `Connected` value, the peer is connected afterwards iff that value is truthy, with the role consequences above; other paths are untouched |
| RoleArbitration.MonitorPropertiesChangedAsWritten | main.py:1362-1403 | the mutex is left held exactly when `GetAll` raises for a newly connected peer |
| RoleArbitration.MutexLeakWitness | main.py:1379-1385 | a concrete notification after which the role mutex stays held |
| RoleArbitration.MonitorPropertiesChanged | main.py:1362-1403 | released on every exit; a false `Connected` disconnects the peer and resets a held role to NONE; a true one leaves the peer connected iff it already was or `GetAll` answered, recording that answer and PERIPHERAL for an unclaimed peer; a failed `GetAll` changes nothing; other peers and roles untouched; with a `GetAll` answer it behaves as written |
| RoleArbitration.AdvertisementInterfacesAdded | main.py:1261-1284 | the peer is connected afterwards iff `Connected` is truthy; other peers untouched |
| RoleArbitration.AdvertisementPropertiesChanged | main.py:1287-1323 | a false `Connected` removes the peer; after a true one the peer is connected iff it already was or `GetAll` answered, a new peer being stored with the fetched dictionary; a failed `GetAll` for a new peer changes nothing; other peers untouched |
| RoleArbitration.DisconnectAll | main.py:249-274 | with the log line unable to fail: every connected peer is disconnected and the set emptied; roles and directory kept |
| RoleArbitration.DisconnectEach | main.py:256-274 | the peers disconnected are exactly those of the iteration order before the first peer without a printable directory entry, and only they leave the connected set; it raises iff such a peer exists; roles and directory kept |
| RoleArbitration.DisconnectAllAsWritten | main.py:249-274 | as written: it raises iff some connected peer has no printable directory entry, and then such a peer is still connected; otherwise the set is emptied |
| RoleArbitration.UnknownPeerBlocksDisconnect | main.py:268-274 | a connected peer missing from the directory makes the loop raise and stays connected |
| RoleArbitration.DisconnectAllAgrees | main.py:249-274 | when every connected peer has a printable entry, the loop as written equals the corrected one |
| RoleArbitration.Step | main.py:1183-1244 | discovery events touch only the directory; claims and inbound events leave the directory alone |
| RoleArbitration.StepKeepsRolesMatchConnected | main.py:1326-1403 | every event keeps "connected iff a non-NONE role is held" |
| RoleArbitration.ClaimKeepsAgreement | main.py:581-592 | the outbound claim keeps that agreement |
| RoleArbitration.InboundConnectedKeepsAgreement | main.py:1342-1351 | an inbound connect keeps it |
| RoleArbitration.InboundDisconnectedKeepsAgreement | main.py:1353-1357 | an inbound disconnect keeps it |
| RoleArbitration.RunKeepsRolesMatchConnected | main.py:132-135 | the agreement lasts along every trace of events |
| RoleArbitration.Run | main.py:132-135 | a trace of discovery events alone never touches roles or the connected set; a trace of claims and inbound events alone never touches the directory |
| RoleArbitration.InitialRolesMatchConnected | main.py:132-135 | the empty role map and empty connected set agree |
| RoleArbitration.CentralIsKept | main.py:1345-1351 | a CENTRAL role is never overwritten with PERIPHERAL; only an inbound disconnect of that peer resets it |
| RoleArbitration.CentralKeptAlongTrace | main.py:1387-1401 | a CENTRAL role survives every trace that does not disconnect the peer |
| RoleArbitration.SecondClaimIsNoOp | main.py:582-583 | claiming an already claimed peer again issues nothing and changes nothing |
| RoleArbitration.ClaimIgnoresConnectFailure | main.py:585-588 | a failed `Connect` still leaves the peer CENTRAL and connected |
| RoleArbitration.InboundBeforeProbe | main.py:1340-1349 | a peer that connected inbound first is PERIPHERAL and the outbound worker then skips it |
| RoleArbitration.ProbeRound | main.py:569-600 | after one round, exactly the claimable peers are CENTRAL and connected; no other peer joins the connected set; other roles unchanged; every `Connect` went to a claimable peer; the goal flag is the size test |
| ProgramSteps.Apply | main.py:506-551 | start and active steps run their phase; a stop routine leaves its own DONE step whatever the step was; the advertising watchdog leaves DISCOVERY_DONE and the combined watchdog DISCOVER_ADVERTISE_DONE, each acting iff its phase is running and never undoing KILL_PROGRAM |
| ProgramSteps.StopEndsEveryPhase | main.py:770-796 | the step a stop routine leaves belongs to no running phase |
| ProgramSteps.StopAfterKill | main.py:1149-1177 | a stop routine overwrites KILL_PROGRAM with its DONE step |
| ProgramSteps.AdvertisingTimeoutLeavesDiscoveryDone | main.py:524-527 | the advertising watchdog ends a running advertisement at DISCOVERY_DONE |
| ProgramSteps.SeenWorkerRuns | main.py:474-475 | the liveness worker runs throughout discovery, stops at DISCOVERY_DONE and never runs after KILL_PROGRAM |
| ProgramSteps.DiscoveryStopEndsSeenWorker | main.py:474-475 | after `discovery_stop`, whatever the step was, the liveness worker's loop ends |
| ProgramSteps.ConnectWorkerRuns | main.py:561-563 | the outbound worker runs exactly while the combined phase runs |
| ProgramSteps.MonitorWorkerRuns | main.py:611-613 | despite `and` binding tighter than `or`, the monitor worker runs exactly while the monitor phase runs |
| ProgramSteps.AfterProbeRound | main.py:597-600 | reaching the goal ends the worker at DISCOVER_ADVERTISE_DONE; otherwise the step is untouched |
| ProgramSteps.Interrupt | main.py:163-189 | with `disconnect_from_all_devices` unable to fail: discovery or advertising is stopped iff running; the monitor is stopped iff a peer is connected; the combined phase never; every peer is disconnected; the step ends at KILL_PROGRAM; exit status 0 |
| ProgramSteps.FirstStops | main.py:177-183 | discovery is stopped iff it runs, advertising iff it runs; never the combined or monitor phase |
| ProgramSteps.InterruptAsWritten | main.py:163-189 | as written: the handler leaves without exiting iff some connected peer has no printable directory entry; then the monitor stop was attempted, that peer is still connected, and KILL_PROGRAM is not set unless it already was; otherwise it is the corrected handler |
| ProgramSteps.InterruptAbortedByUnknownPeer | main.py:185-189 | an interrupt in the monitor phase with an inbound peer missing from the directory neither sets KILL_PROGRAM nor exits |
| ProgramSteps.RegisterAdvertisement | main.py:891-934 | proceeds after the first success or `AlreadyExists`, with every earlier reply a failure; exits with status 1 iff all five calls fail otherwise; `AlreadyExists` on the first call proceeds after that one call |
| ProgramSteps.OuterRetry | main.py:1467-1479 | monitoring begins after the first phase run that leaves a peer connected, with no run skipped; it keeps retrying iff no run connected any |
| LogLines.IsTimedLine | log_parser.py:8-17 | the positional reading of `^(timestamp) - <text>$`; `LogLines.TimedLineIff` relates it to the pattern |
| LogLines.IsMonitorStart | log_parser.py:12-14 | `RE_CONNECTION_MONITOR_START` is the timed line with the monitoring-start message |
| LogLines.IsMonitorEnd | log_parser.py:15-17 | `RE_CONNECTION_MONITOR_END` is the timed line with the fall-back message |
| LogLines.TimedLineIff | log_parser.py:8-17 | a timed line is exactly a timestamp, " - ", the text and an optional newline |
| LogLines.MarkersDisjoint | log_parser.py:12-17 | no line is both a START and an END marker |
| LogLines.NodePrefixUnique | log_parser.py:19 | a node name followed by a non-digit is the only node name at the start of the text |
| LogLines.NodePairIff | log_parser.py:19-27 | the pair parser accepts exactly two node names joined by the separator |
| LogLines.PersonPrefixLength | log_parser.py:20 | the longest run of person-name characters |
| LogLines.PersonPrefixUnique | log_parser.py:20 | a run that stops at a non-name character is that longest run |
| LogLines.NamedHeaderIff | log_parser.py:22-23 | the `//(person)[:.] ` prefix parser accepts exactly that form and returns its parts |
| LogLines.NamedFormUnique | log_parser.py:22-30 | the person, mark and tail of a named header are determined by the line |
| LogLines.NamedFromTo | log_parser.py:22-23 | `RE_NAMED_FROM_TO`: whatever it yields is two node names |
| LogLines.AnonFromTo | log_parser.py:24-25 | `RE_ANON_FROM_TO`: whatever it yields is two node names, and the line is `//a to b` |
| LogLines.AnonFromToShort | log_parser.py:26-27 | `RE_ANON_FROM_TO_SHORT`: whatever it yields is two node names, and the line is `ab` |
| LogLines.NamedFromToIff | log_parser.py:22-23 | `NAMED_FROM_TO` yields `(a, b)` iff the line is a named header whose tail is `a to b` with node names |
| LogLines.AnonFromToIff | log_parser.py:24-25 | `ANON_FROM_TO` yields `(a, b)` iff the line is `//a to b` with node names |
| LogLines.AnonFromToShortIff | log_parser.py:26-27 | `ANON_FROM_TO_SHORT` yields `(a, b)` iff the line is `ab` with node names |
| LogLines.IsNegativeFrom | log_parser.py:28-29 | `RE_NEGATIVE_FROM` by position; `LogLines.NegativeFromIff` relates it to the pattern |
| LogLines.NegativeFromIff | log_parser.py:28-29 | `NEGATIVE_FROM` matches iff the line is a named header whose tail is a node name and ` above` |
| LogLines.IsNamedStop | log_parser.py:30 | `RE_NAMED_STOP` by position; `LogLines.NamedStopIff` relates it to the pattern |
| LogLines.IsAnonStop | log_parser.py:31 | `RE_ANON_STOP`: the line is `//stop`, up to one final newline |
| LogLines.NamedStopIff | log_parser.py:30 | `NAMED_STOP` matches iff the line is a named header whose tail is `stop` |
| LogLines.ParenIndex | log_parser.py:33 | the first '(' of the text; `[^(]+` can run only up to it |
| LogLines.DigitPrefixLength | log_parser.py:34 | the longest run of digits |
| LogLines.DbmIff | log_parser.py:34 | the dBm parser yields `d` iff `d` is `-?digits` and the text starts with `d dBm` |
| LogLines.AddressIff | log_parser.py:9-10 | the address parser yields the address and dBm iff the text starts with a well-formed `address): dBm dBm` |
| LogLines.NameIff | log_parser.py:33-34 | the name stage yields its groups iff the text starts with ` name (address): dBm dBm` with a '('-free name |
| LogLines.ParseMeasurement | log_parser.py:33-34 | `RE_MEASUREMENT`: a reading it yields starts with a timestamp that begins the line, followed by ` - ` |
| LogLines.MeasurementIff | log_parser.py:33-34 | `MEASUREMENT` yields reading `r` iff `r`'s groups are well-formed and the line starts with the text they spell |
| LogParser.Classify | log_parser.py:94-131 | a pair header carries two node names |
| LogParser.ScanLine | log_parser.py:64-76 | after a line a section is open iff the line is START, or a section was open and the line is no marker; the closed sections only grow, by the open section when END closes it |
| LogParser.Scan | log_parser.py:52-81 | when no section is open nothing is being collected; no more sections than lines |
| LogParser.Sections | log_parser.py:52-81 | the sections returned, concatenated, are exactly the lines read while a section was open |
| LogParser.ScanOpenIff | log_parser.py:64-76 | the splitter holds a section open iff some START was read with no END after it |
| LogParser.ScanCollectsInside | log_parser.py:64-76 | the closed sections plus the open one are exactly the non-marker lines read while a section was open |
| LogParser.SectionsAreInside | log_parser.py:52-81 | the emitted sections, concatenated, are exactly those inside lines |
| LogParser.InsideHasNoMarkers | log_parser.py:65-76 | no emitted line is a START or END marker |
| LogParser.InsideIsSubsequence | log_parser.py:75-76 | emitted lines are lines of the log, in log order |
| LogParser.EndWhileClosedIgnored | log_parser.py:67-69 | an END outside a section changes nothing |
| LogParser.SecondStartContinues | log_parser.py:65-66 | a second START inside a section neither flushes nor resets it |
| LogParser.StartOpens | log_parser.py:65-66 | START opens a section and keeps what was collected |
| LogParser.ContentJoinsOpenSection | log_parser.py:75-76 | ordinary lines inside a section are appended to it in order |
| LogParser.OpenSectionEmitted | log_parser.py:78-79 | a section still open at the end of the log is emitted |
| LogParser.Advance | log_parser.py:94-142 | at most one row per line, and only for a measurement line under a pair header, tagged with that pair and carrying the line's time, address and dBm; a pair header replaces the header, a stop header clears it, any other line keeps it |
| LogParser.Read | log_parser.py:89-142 | never more rows than lines |
| LogParser.MeasureLines | log_parser.py:89-142 | never more rows than lines |
| LogParser.MeasureSections | log_parser.py:84-144 | never more rows than section lines |
| LogParser.Measurements | log_parser.py:84-144 | never more rows than section lines |
| LogParser.ParseLog | log_parser.py:52-144 | every row has a timestamp, two node names, a Bluetooth address and a dBm value |
| LogParser.ReadAppend | log_parser.py:89-93 | reading two runs in sequence equals reading them joined, the header carried across |
| LogParser.MeasureLinesAppend | log_parser.py:91-93 | the same for runs of lines |
| LogParser.SectionsCarryHeader | log_parser.py:89-93 | the header is not reset between sections: reading sections is reading their lines joined |
| LogParser.ParseLogReadsInside | log_parser.py:52-144 | a log's rows are those of its inside lines read with one running header from none |
| LogParser.UnderPairHeader | log_parser.py:133-142 | under a pair header, with no header change, every measurement line becomes one row tagged with that pair, in order |
| LogParser.WithoutHeader | log_parser.py:133-134 | with no header, nothing is recorded until a pair header |
| LogParser.RowsAreWellFormed | log_parser.py:133-142 | every row has two node names and the time, address and dBm of some measurement line |
| LogParser.StopHeaderSilences | log_parser.py:127-131 | after a stop header nothing is recorded until the next pair header |
| LogParser.NegativeHeaderSkipped | log_parser.py:123-125 | a one-node `above` header changes neither header nor rows |

## Left out

- D-Bus and GLib plumbing is not modelled: proxies, signal receivers, main loops and timers. Every BlueZ answer is a parameter: the `Connected` and `RSSI` reads, `Connect` failures and `GetAll` results.
- Threads, `time.sleep` and `random.randint` are not modelled. Each critical section under `mutex_role_to_device` is one atomic step, and interleavings are sequences of events (`RoleArbitration.Run`).
- Printing and logging are not modelled, and neither is `make_device_id`, which reads a machine-id file. `argparse`, `run_parse_file` and the file reading of the log parser are also out.
- `bluetooth_constants.py` and `bluetooth_utils.py` are not part of this model. The interface names are BlueZ's standard names, and `dbus_to_python` is taken as the identity on text.
- The two L2CAP C programs are not part of this model.
- `managed_objects_found`, a counter used only for output, is not modelled.
- `thread_check_connected_devices` is modelled only through its loop guard. Its body only reads and prints.
- Python dictionaries are values here. The aliasing that makes `devices_found[path].update(changed)` also visible through `devices_connected` is not modelled.
- `Text.IsDigit`: `\d` is read as the ASCII digits. Python's `str` patterns also accept other Unicode decimal digits.
- `DeviceDirectory.IsDeviceMatching`: a `Name` that is not text is treated as not matching. In the program, `re.search` on a non-string raises.
- `ProgramSteps.RegisterAdvertisement`: the error of each call is taken as synchronous. In the handler variants registration errors arrive asynchronously through the error callback, and that path is not modelled.
- `ProgramSteps.OuterRetry`: it models the auto and peripheral modes. It covers the central mode only through `RoleArbitration.ConnectToDevices`, which does the connecting in that loop. The loop is unbounded, so the model takes a finite run.
- `DeviceDirectory.ProbeSeen`: it models one pass of the liveness worker. `seen_all_devices` is kept as the pass's result rather than as a global. Its log line for a newly seen device (main.py:491) can raise `KeyError` for an entry with a `Name` but no `Address`, ending the worker thread; that is not modelled.
- `RoleArbitration.Step`: a `DevicePropertiesChanged` event uses the corrected `DeviceDirectory.PropertiesChanged`, so it no longer promises the program's behaviour for a path the directory does not know (see Findings).
- `ProgramSteps.Interrupt` and `RoleArbitration.DisconnectAll`: they assume every connected peer's log line succeeds; `ProgramSteps.InterruptAsWritten` and `RoleArbitration.DisconnectAllAsWritten` state what happens when one does not.
- `LogLines.IsAnonStop` compares the line directly with `//stop`, so it has no separate lemma.
- `LogParser.Classify` states only the shape of a pair header. The priority order among the patterns is its body.

## Where the docstrings and the code part ways

The model follows the code in each case:
- `connect_to_devices` says it connects to all provided devices. A peer without `Address` makes it raise `KeyError` (main.py:225), and the outbound worker then leaves that peer's role unset (main.py:585-590). Its role becomes CENTRAL after the call returns, whether `Connect` was issued or not (main.py:585-588).
- `disconnect_from_all_devices` says it disconnects from all connected devices. It stops at the first peer its log line cannot look up (see Findings), and it leaves roles as they are (main.py:249-274). Only the inbound handlers reset a role.
- `handler_signal_interrupt` says it shuts the program down in a controlled manner. It does not stop a running combined discover-and-advertise phase (main.py:177-183), and an exception from `connection_monitor_stop` leaves it before `sys.exit(0)` (see Findings).
- `advertising_stop` sets ADVERTISING_DONE, but the advertising watchdog then overwrites it with DISCOVERY_DONE (main.py:524-527).

## Findings

| source | as written | input that shows it | evidently intended | confidence | as-written member | corrected member |
|---|---|---|---|---|---|---|
| main.py:1379-1403 | `GetAll` runs between `acquire()` and `release()` with no `try`/`finally` | a `PropertiesChanged` with `Connected = true` for a peer not yet connected, whose `GetAll` raises a D-Bus error | the role mutex is released on every exit, and a failed fetch changes nothing | medium, not executed | RoleArbitration.MonitorPropertiesChangedAsWritten (witness RoleArbitration.MutexLeakWitness) | RoleArbitration.MonitorPropertiesChanged |
| main.py:1239-1244 | `print_info_updated_device` runs before the update and indexes `devices_found[path]` (main.py:288), so the branch that records a new path is never reached | a `PropertiesChanged` on `org.bluez.Device1` for a path not yet in `devices_found` | the new path is recorded with the changed properties | medium, not executed | DeviceDirectory.PropertiesChangedAsWritten (witness DeviceDirectory.NewPathNeverRecorded) | DeviceDirectory.PropertiesChanged |
| main.py:256-274 | `print_info_disconnect_from_device` indexes `devices_found[path]` (main.py:288) before `Disconnect` and the delete | a connected peer that joined inbound and is not in `devices_found` | every connected peer is disconnected and the set emptied | medium, not executed | RoleArbitration.DisconnectAllAsWritten (witness RoleArbitration.UnknownPeerBlocksDisconnect) | RoleArbitration.DisconnectAll |
| main.py:185-189 | the `KeyError` from `connection_monitor_stop` leaves the handler before KILL_PROGRAM is set and before `sys.exit(0)` | an interrupt in the monitor phase with such a peer connected | the handler sets KILL_PROGRAM and exits with status 0 | medium, not executed | ProgramSteps.InterruptAsWritten (witness ProgramSteps.InterruptAbortedByUnknownPeer) | ProgramSteps.Interrupt |

With the mutex left held, the outbound worker's next claim blocks at main.py:581. So does every later monitor handler.

`get_device_info_name` (main.py:280-303) reads `devices_found[path]` with no guard, and `["Address"]` with no guard when a `Name` is present. It only builds a log line, but three handlers call it before they act. `handle_properties_changed` thus drops every change for a path the directory does not know. `disconnect_from_all_devices` stops at the first connected peer the directory does not know. Such peers arise naturally: `discovery_stop` and the combined stop routine remove the discovery handlers before monitoring begins (main.py:786-794, main.py:1086-1094), and the peripheral mode only runs `find_known_devices` once (main.py:1521), so a peer BlueZ first meets after that never enters `devices_found`. The corrected members treat the log line as unable to fail, and the event model (`RoleArbitration.Step`, `ProgramSteps.Interrupt`) uses them. `DeviceDirectory.InterfaceRemoved` keeps the as-written guard: there the lookup only fails for an entry with a `Name` but no `Address`. The model assumes BlueZ always reports an `Address` alongside a `Name`, so that case is not a finding here.
