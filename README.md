# nawt — a Dafny model of its wireless-control core

nawt is a Node.js library that drives a Linux machine's Wi-Fi. It talks to
`wpa_supplicant` through `wpa_cli` (lib/wpa.js), listens to the supplicant's
event stream (lib/wpa-monitor.js), and offers two front ends over it: the
`Wireless` class (lib/wireless.js) and the function-style `wifi` module
(lib/wifi.js). It also runs an access point through the `create_ap` script,
either as a systemd service whose properties file it rewrites (lib/apctl.js,
lib/apc.js) or as a child process (lib/ap.js). It reads `iw dev` output to
find interfaces (lib/iw.js), resolves hardware tokens over an `lshw`
listing (lib/ifacer.js), and has two case helpers (lib/utils.js).

This project models that core in Dafny, one module per source file:

| module | source | form |
|---|---|---|
| `Wpa` | lib/wpa.js | reply parsers as functions; the `WPA` client as a class holding the lines it has sent and the daemon it talks to |
| `WpaMonitor` | lib/wpa-monitor.js | the line splitter and the control-event classifier as functions; the `Monitor` lifecycle as a class |
| `Reconciler` | lib/wireless.js, lib/wifi.js | the field map, `findNetworkBySsid` and `addOrUpdateNetwork` that both front ends share, as a specification over a daemon plus methods on the client |
| `Wireless` | lib/wireless.js | state, mode, `detect`'s classifier and loop, the by-ssid commands, and the `Wireless` class |
| `Wifi` | lib/wifi.js | the three-way state with access-point priority, and the mode |
| `ApCtl` | lib/apctl.js | the shared, mutated `DEFAULTS`, `normalize`, the service name and the `--config` path, as a `Controller` class |
| `Apc` | lib/apc.js | `normalize` with phy resolution, and `configure`, under a per-instance service name |
| `Ap` | lib/ap.js | the `create_ap` command line, built by loops as the source builds it; the `AP` process lifecycle as a state machine and a class |
| `Iw` | lib/iw.js | the `iw dev` parser: regular-expression fields, the lookahead splits, the stable sort by phy, and the device lookup |
| `Ifacer` | lib/ifacer.js | `resolve` over an already-parsed hardware list |
| `Utils` | lib/utils.js | `toUpper` and `toLower` |

Shared modules: `Common` (`Option`, `Result`), `Text` (JavaScript's string
operations: `trim`, `split`, `join`, `indexOf`, ASCII case and decimal
numbers), `Js` (JavaScript values, truthiness, `String(v)`, and
insertion-ordered objects with `Object.assign`), `Record` (assigning
key/value entries into a record), `Shell` and `Supplicant`.

`Shell` is how `/bin/sh -c` cuts a command line into words: blanks,
single quotes, double quotes with their four backslash escapes, and a
backslash outside quotes. A quote left open is a syntax error, and then
nothing runs. `exec` in lib/wpa.js hands its joined line to this shell.

`Supplicant` is not part of the library: it is the environment the client
talks to, a `wpa_supplicant` whose network table has ids, names, settings
and an enabled flag, which answers `list_networks`, `add_network`,
`set_network`, `enable_network`, `select_network`, `remove_network`,
`save_config` and the rest, and which can be told to answer `FAIL` to any
verb. Every `wpa_cli` call the library makes is modelled as one line
appended to the client's `sent` trace plus one step of that daemon. The
daemon acts on the words the shell reads from the arguments. When the
shell finds a syntax error, the daemon is unchanged and the call fails. This is
what lets the model state "no second `add_network` for a known ssid" and
"exactly this command order".

Processes, files and services are replaced by parameters:
- what `iw dev` printed;
- the unit file systemd reports (`None` when there is none);
- a function reading a properties file by path;
- the script path and whether it exists;
- the outputs of `lsusb` and `iwconfig`;
- the signal `close` sends, and whether the wait for `close` timed out.

Behaviours of the code worth knowing, all modelled as written:
- lib/apctl.js merges into its module-wide `DEFAULTS`. A property one call
  sets, outside the four base keys, is still set for the next call
  (`ApCtl.MergeLeaks`).
- The `Monitor`'s process-close handler removes every listener before it
  emits `close`, so nobody receives `close`.
- A second `close()` on a `Monitor` dereferences null and throws.
- In `addOrUpdateNetwork` the `password && !auth` half of the WEP guard is
  unreachable, because it sits in the branch where the password is falsy.
  WEP fields are written only for a falsy password with auth `WEP`.
- An `Ap.AP` whose `close` did not time out stays attached until its output
  says `done`. `Ap.CloseSpec` states this.
- lib/apc.js resolves `wifi_iface` (`phy0` by default) to an interface.
  The caller's options are then assigned over the result. So a caller who
  passes `wifi_iface: 'phy1'` gets `WIFI_IFACE=phy1`, not the interface
  resolved from it (`Apc.PropsGet`).
- `setNetworkSettingString` protects its value with single quotes only, so
  a name with a single quote breaks it; see Findings.

## Model

| member | source | states |
|---|---|---|
| Wpa.CommandLineTokens | lib/wpa.js:20 | the line is `wpa_cli -i <iface> <cmd> <args…>` joined by single spaces: when no token holds a space it splits back into exactly those tokens |
| Wpa.Reply | lib/wpa.js:22-28 | the reply is an error exactly when the trimmed output is `FAIL`; the error's message is `Command failed: ` plus the full line; any other output comes back trimmed |
| Wpa.Client.constructor | lib/wpa.js:10-13 | an empty interface name falls back to `wlan0`; nothing has been sent |
| Wpa.Client.Exec | lib/wpa.js:15-29 | exactly one line is appended to the trace, the daemon takes one step on what the shell reads from the arguments, and the result is `Reply` of that line and the daemon's output |
| Wpa.ParseStatus | lib/wpa.js:37-42 | the `forEach` assignment loop computes the record `StatusOf` of the reply's lines |
| Wpa.StatusStep | lib/wpa.js:39-41 | one more line assigns its entry when it is longer than 3 characters and changes nothing otherwise |
| Wpa.StatusKeys | lib/wpa.js:39-41 | a key is in the status record exactly when some line longer than 3 characters has that key |
| Wpa.StatusEntryOfPair | lib/wpa.js:40-41 | a `key=value` line with trimmed, `=`-free key and value reads back as that key and value |
| Wpa.StatusConcat | lib/wpa.js:39-42 | parsing two blocks of lines is parsing the first and letting the second overwrite it (later duplicate keys win) |
| Wpa.StatusRepeated | lib/wpa.js:39-42 | a block of status lines repeated twice parses to the same record as the block once |
| Wpa.LongEntriesOf | lib/wpa.js:39 | the entries read are exactly those of the lines longer than 3 characters |
| Wpa.LongEntriesConcat | lib/wpa.js:39 | the long-line filter works line by line and keeps order |
| Wpa.Client.Status | lib/wpa.js:34-48 | one `status` command; an error is passed on, otherwise the record parsed from the reply; the daemon is unchanged |
| Wpa.Client.Scan | lib/wpa.js:53-79 | `scan_result` is sent only when the `scan` reply is exactly `OK`; otherwise the call fails carrying that reply and sends nothing more; on success the result is the parse as written (`ScanRowsAsWritten`), so a four-field row fails the call |
| Wpa.ScanRowsAsWritten | lib/wpa.js:63-73 | the parse as written fails exactly when some kept record has exactly 4 fields |
| Wpa.ScanRows | lib/wpa.js:63-73 | the corrected parse is total and gives at most one row per record |
| Wpa.ScanRowsAgree | lib/wpa.js:63-73 | wherever the parse as written succeeds, the corrected parse gives the same rows |
| Wpa.ScanFourFieldRow | lib/wpa.js:67-72 | a table holding one row without its ssid column makes the parse as written fail; the corrected parse gives that row with an empty ssid |
| Wpa.ScanLineReads | lib/wpa.js:66-72 | a printed scan line with clean cells has more than 3 fields and reads back as its row |
| Wpa.ScanRoundTrip | lib/wpa.js:63-73 | a scan table printed from clean rows parses back to exactly those rows, in order, after the header is dropped |
| Wpa.ScanRowsOfRecords | lib/wpa.js:65-73 | the records of clean printed lines map back to their rows |
| Wpa.RecordsOfScanTable | lib/wpa.js:63-66 | dropping the header of a printed table and splitting on tabs gives one record per printed line |
| Wpa.Client.AddNetwork | lib/wpa.js:84-86 | one `add_network` command; its reply read as `parseInt` reads it |
| Wpa.Client.ListNetworks | lib/wpa.js:91-109 | one `list_networks` command; an error is passed on, otherwise the parsed table; the daemon is unchanged |
| Wpa.NetworkRowOfLine | lib/wpa.js:97-98 | a line with fewer than 3 tab fields never gives a row; one with 3 or more always gives exactly one |
| Wpa.NetworkRowsConcat | lib/wpa.js:96-104 | rows are parsed line by line and keep their order |
| Wpa.RowLineReads | lib/wpa.js:97-104 | a row the daemon prints for a network with a clean ssid reads back as its id, ssid, `any` and flags, all trimmed |
| Wpa.RowsOfRowLines | lib/wpa.js:96-104 | the printed rows of a network table read back as one row per network, in order |
| Wpa.ListRoundTrip | lib/wpa.js:93-104 | the table the daemon prints parses back to one row per configured network, in the daemon's order |
| Wpa.RowLineListed | lib/wpa.js:97-104 | a row the daemon prints for a network whose ssid holds no tab or line break reads back as its id, its ssid trimmed, `any` and flags |
| Wpa.RowsTrimmed | lib/wpa.js:97-102 | every ssid the listing parse gives is trimmed, whatever the table holds |
| Wpa.ListedRowsOfRowLines | lib/wpa.js:96-104 | the printed rows of a table whose names hold no tab or line break read back one per network, in order, names trimmed |
| Wpa.ListRoundTripListed | lib/wpa.js:93-104 | the printed table of such networks parses back to one row per network, in the daemon's order, names trimmed |
| Wpa.LinesOfRender | lib/wpa.js:94-95 | the printed table splits into the header, which is dropped, and the rows |
| Wpa.RenderTrimmed | lib/wpa.js:22 | the trimming `exec` does leaves a printed network table unchanged |
| Wpa.Client.SetNetworkSetting | lib/wpa.js:111-113 | one `set_network id name value` command with the value as given |
| Wpa.Client.SetNetworkSettingString | lib/wpa.js:115-118 | the same command with the value in its quoted form `'"value"'` |
| Wpa.QuoteHeard | lib/wpa.js:115-118 | for a text without a single quote, with a plain id and name, the shell hands the daemon the id, the name and the double-quoted text, and the daemon reads back exactly the text |
| Wpa.QuoteUnterminated | lib/wpa.js:116 | a text with one single quote (`Bob's iPhone`) leaves the shell a quote open, so it reads no words and nothing runs |
| Wpa.QuoteDrops | lib/wpa.js:116 | a text with a single-quoted stretch of plain letters (`a'b'c`) reaches the daemon without its single quotes |
| Wpa.QuoteEscapedHeard | lib/wpa.js:115-118 | quoting each single quote as `'\''` hands the daemon every text exactly, single quotes included |
| Shell.WordsAfter | lib/wpa.js:20-22 | a plain word followed by a blank is read as that word, then the words of the rest, and the line fails exactly when the rest does |
| Shell.JoinWords | lib/wpa.js:20-22 | plain words joined by single spaces are read back as exactly those words |
| Shell.SingleQuoted | lib/wpa.js:20-22 | a text without a single quote, inside single quotes, is read as one word holding exactly that text |
| Shell.QuotedAny | lib/wpa.js:20-22 | any text whose single quotes are written `'\''`, inside single quotes, is read as one word holding exactly that text |
| Wpa.Client.GetNetworkSetting | lib/wpa.js:120-123 | one `get_network id name` command; the daemon is unchanged |
| Wpa.Client.EnableNetwork | lib/wpa.js:129-132 | one `enable_network id` command |
| Wpa.Client.DisableNetwork | lib/wpa.js:138-141 | one `disable_network id` command |
| Wpa.Client.SelectNetwork | lib/wpa.js:147-150 | one `select_network id` command |
| Wpa.Client.RemoveNetwork | lib/wpa.js:156-159 | one `remove_network id` command |
| Wpa.Client.ReloadConfiguration | lib/wpa.js:161-164 | one `reconfigure` command with no arguments |
| Wpa.Client.SaveConfiguration | lib/wpa.js:166-169 | one `save_config` command with no arguments |
| Wpa.Client.Disconnect | lib/wpa.js:174-177 | one `disconnect` command with no arguments |
| WpaMonitor.KeptClean | lib/wpa-monitor.js:43-45 | every line kept from a chunk is trimmed, non-empty and not the prompt `>`, and there are no more lines than pieces |
| WpaMonitor.KeptSkips | lib/wpa-monitor.js:45 | a blank piece or a bare prompt is dropped wherever it occurs |
| WpaMonitor.KeptConcat | lib/wpa-monitor.js:44-45 | the filter works piece by piece and keeps order |
| WpaMonitor.KeptPlain | lib/wpa-monitor.js:44-45 | lines that are already trimmed, non-empty and not a prompt are all kept, unchanged |
| WpaMonitor.ChunkLinesOfJoin | lib/wpa-monitor.js:43-46 | lines written one per row come back out of the splitter exactly |
| WpaMonitor.TagSpec | lib/wpa-monitor.js:89-95 | there is no tag exactly when no character is in `[A-Z-]`; a tag is the first non-empty maximal run of such characters |
| WpaMonitor.TagRunMaximal | lib/wpa-monitor.js:89 | the run is the text at its start, made of tag characters, and cannot be extended |
| WpaMonitor.TagStartFirst | lib/wpa-monitor.js:89 | the run starts at the first tag character |
| WpaMonitor.TagOfPrefix | lib/wpa-monitor.js:89-95 | a text that begins with a complete tag has that tag |
| WpaMonitor.FieldsKeys | lib/wpa-monitor.js:100 | a key is in the argument record exactly when some blank-separated part names it |
| WpaMonitor.FieldsOfPair | lib/wpa-monitor.js:100 | one `key=value` part with plain key and value reads back as that pair |
| WpaMonitor.ConnectedCtrl | lib/wpa-monitor.js:97-98 | `CTRL-EVENT-CONNECTED - <m>` gives `control` with `{msg: m}`, then `connected` |
| WpaMonitor.DashRemainder | lib/wpa-monitor.js:96 | the remainder of a tag followed by ` - m` is `- m` |
| WpaMonitor.LineEvents | lib/wpa-monitor.js:75-82 | the first event of a line is `data` with the trimmed line; a line without `<3>CTRL` gives nothing else |
| WpaMonitor.LineOfCtrl | lib/wpa-monitor.js:79-80 | a trimmed line `<3>` plus a control message gives `data`, then that message's events |
| WpaMonitor.LineData | lib/wpa-monitor.js:78 | each handled line is announced as `data` exactly once, and the control events add no `data` |
| WpaMonitor.ChunkData | lib/wpa-monitor.js:41-46 | every kept line of a chunk is announced as `data`, once and in order |
| WpaMonitor.Monitor.constructor | lib/wpa-monitor.js:29-33 | an empty name falls back to `wlan0`; one process is spawned at once |
| WpaMonitor.Monitor.Setup | lib/wpa-monitor.js:35-39 | a process is spawned only when none is attached |
| WpaMonitor.Monitor.Close | lib/wpa-monitor.js:66-69 | kills the attached process and forgets it; with none attached it fails, so a second `close` is an error |
| WpaMonitor.Monitor.Emit | lib/wpa-monitor.js:103-108 | an event reaches the log only while listeners remain |
| WpaMonitor.Monitor.OnProcessClose | lib/wpa-monitor.js:54-58 | every listener is removed before `close` is emitted, so no event is delivered, `close` included |
| WpaMonitor.Monitor.OnStderr | lib/wpa-monitor.js:49-52 | stderr text becomes an `error` event |
| WpaMonitor.Monitor.HandleCtrl | lib/wpa-monitor.js:88-109 | appends exactly `CtrlEvents` of the message |
| WpaMonitor.Monitor.Handle | lib/wpa-monitor.js:75-82 | appends exactly `LineEvents` of the line |
| WpaMonitor.Monitor.HandleLines | lib/wpa-monitor.js:46 | the `forEach` handles the lines in order, appending their events one line after another |
| WpaMonitor.Monitor.OnStdout | lib/wpa-monitor.js:41-47 | a stdout chunk appends the events of its kept lines, in order |
| Reconciler.FieldData | lib/wireless.js:100-110 | the field map names each key once |
| Reconciler.FieldDataShape | lib/wireless.js:100-110 | the field map in full: `ssid`, `psk`, `key_mgmt` (`WPA-PSK` for a truthy password, else `NONE`), the WEP fields only for a falsy password with auth `WEP`, and `scan_ssid=1` last |
| Reconciler.FieldDataStarts | lib/wifi.js:70-80 | the field map opens with the ssid, names each key once, and every key passes the shell unchanged |
| Reconciler.SettingArgs | lib/wireless.js:119-122 | a field write sends the id, the key and a value; for `ssid` and `psk` with a text holding no single quote, the daemon hears the double-quoted text and reads back exactly the value's text |
| Reconciler.FirstWithSsid | lib/wireless.js:85 | the position of the first listed row with the ssid, and none when no row has it |
| Reconciler.FindNetworkBySsid | lib/wifi.js:51-54 | one `list_networks`; an error is passed on, otherwise the first row with the ssid |
| Reconciler.NetworkId | lib/wifi.js:84-85 | the id of the found row, or the reply of `add_network` when none was found |
| Reconciler.WriteAll | lib/wifi.js:86-93 | the loop writes the fields one command at a time in the map's order, stopping at the first failure |
| Reconciler.WriteField | lib/wifi.js:87-92 | one field write: the quoted setter for `ssid` and `psk`, the raw setter otherwise |
| Reconciler.Finish | lib/wifi.js:94-96 | `enable_network`, `select_network` and `save_config` on the id, each only after the one before succeeded; the result is the save reply |
| Reconciler.AddOrUpdateNetwork | lib/wifi.js:66-97 | the whole exchange of the loop version equals the specification `Reconcile` against the daemon it started from |
| Reconciler.WriteFieldsStuck | lib/wireless.js:118-123 | once a write has failed the later steps send nothing |
| Reconciler.WriteFieldsSent | lib/wireless.js:118-122 | the writes send a prefix of their lines, and all of them when they succeed |
| Reconciler.ThenSent | lib/wireless.js:115-126 | one more step sends at most its own line, and exactly it when it succeeds |
| Reconciler.ClosingSent | lib/wireless.js:123-126 | the closing commands send a prefix of enable, select, save, and all three when they succeed |
| Reconciler.ChainSent | lib/wireless.js:117-126 | the writes and closing commands send a prefix of their lines after the start's |
| Reconciler.PreparedSent | lib/wireless.js:115-116 | the listing and the optional `add_network` send a prefix of their lines, both when they succeed |
| Reconciler.ReconcileSent | lib/wireless.js:97-127 | every exchange sends a prefix of the plan (listing, `add_network` only when no row has the ssid, the field writes in order, enable, select, save), so a failing step stops the rest; a successful one sends the plan exactly |
| Reconciler.ExistingSpec | lib/wireless.js:84-86 | against a daemon whose names are trimmed and free of tabs and line breaks, a network is found exactly when one has the ssid; it is the first such, and its id is reused |
| Reconciler.ListingRows | lib/wireless.js:80-82 | listing a daemon whose names are trimmed and free of tabs and line breaks gives its networks as rows, unchanged |
| Reconciler.ListingListed | lib/wireless.js:80-82 | listing a daemon whose names hold no tab or line break gives its networks as rows with the names trimmed, and leaves it unchanged |
| Reconciler.AddedNetwork | lib/wpa.js:84-86 | a successful `add_network` appends one unnamed network whose id is the one the reply prints |
| Reconciler.AddedId | lib/wireless.js:116 | when no row has the ssid, the fields go to the id of the network just added |
| Reconciler.ReuseCount | lib/wireless.js:115-126 | for trimmed names, when a listed row has the ssid, a successful exchange leaves the number of networks with the ssid as it was |
| Reconciler.AddCount | lib/wireless.js:115-126 | for trimmed names, when no listed row has the ssid, none had it, and a successful exchange leaves exactly one network with it |
| Reconciler.ReconcileCount | lib/wireless.js:97-127 | for a trimmed ssid without a single quote, against a daemon whose names are trimmed, a successful exchange reuses a network exactly when one already has the ssid, and afterwards the count of the ssid is unchanged when it was positive and 1 otherwise, so no second network is added for a known ssid |
| Reconciler.WriteTracks | lib/wireless.js:118-122 | successful writes change only the target network, and after the first field it carries the ssid |
| Reconciler.ChainTracks | lib/wireless.js:118-126 | after the writes and closing commands succeed, the target carries the ssid and the other networks keep their names |
| Reconciler.ChainCount | lib/wireless.js:118-126 | after a successful chain the count of the ssid is that of the table with the target renamed |
| Reconciler.ReusedCount | lib/wireless.js:118-126 | writing to a network already named with the ssid keeps the count |
| Reconciler.AddedCount | lib/wireless.js:118-126 | writing to a network just appended adds one network with the ssid |
| Reconciler.StepTracks | lib/wireless.js:118-126 | a command that does not fail keeps the table's shape, and only `set_network … ssid` renames the target, to the unquoted text the daemon heard |
| Reconciler.WriteStepTracks | lib/wireless.js:119-122 | one successful field write keeps the shape, and the `ssid` write names the target |
| Reconciler.PaddedNotFound | lib/wireless.js:84-86 | as written, an ssid with a blank at either end is never found, whatever the daemon holds, because the listing trims every name (lib/wpa.js:97) |
| Reconciler.PaddedAddsAgain | lib/wireless.js:97-127 | as written, every successful exchange for such an ssid adds one more network with it, however many already have it |
| Reconciler.ShownSpec | lib/wireless.js:84-86 | the corrected lookup, comparing with the trimmed ssid, finds a network exactly when one is listed under that name; it is such a network, and its id is reused |
| Reconciler.TrimmedReuse | lib/wireless.js:115-126 | corrected exchange, a network listed under the trimmed name: the number listed under it stays as it was |
| Reconciler.TrimmedAdd | lib/wireless.js:115-126 | corrected exchange, none listed under the trimmed name: one more is listed under it afterwards |
| Reconciler.ReconcileTrimmedCount | lib/wireless.js:97-127 | corrected exchange, for any ssid without a single quote and any names free of tabs and line breaks: it reuses a network exactly when one is listed under the trimmed name, and afterwards the number listed under it is unchanged when it was positive and 1 otherwise |
| Reconciler.TargetOfId | lib/wireless.js:130-142 | a command naming a network by its printed id reaches that network |
| Wireless.LowerFieldIs | lib/wireless.js:45-46 | comparing the lower-cased field with a lower-case word ignores case |
| Wireless.StateSpec | lib/wireless.js:43-51 | the state is `connected` exactly when `wpa_state` is `connected` or `completed` in any case, else `disconnected` |
| Wireless.ModeSpec | lib/wireless.js:56-63 | the mode is `ap` exactly when `wpa_state` is `disconnected` in any case and `ip_address` is non-empty, else `station` |
| Wireless.AccessPointDisconnected | lib/wireless.js:43-63 | an access point is never in the `connected` state |
| Wireless.CheckSpec | lib/wireless.js:154-163 | `802.11` wherever it occurs; else `WLAN` when the upper-cased output holds `WLAN`; else nothing |
| Wireless.FirstDetectedSpec | lib/wireless.js:165-182 | a device is detected exactly when some output shows one, and it is the one the earliest such output shows |
| Wireless.Detect | lib/wireless.js:167-182 | the `next` loop returns the first detected device, skipping failed commands |
| Wireless.OnNamedSent | lib/wireless.js:129-143 | against a daemon whose names are trimmed, after a successful listing, no command follows when no network has the ssid, and otherwise exactly one, naming the first network with it |
| Wireless.RemoveById | lib/wireless.js:130 | `remove_network` with a network's printed id removes that network |
| Wireless.RemoveStep | lib/wireless.js:130 | a successful removal takes the network and its name out of the count |
| Wireless.RemoveNamedCount | lib/wireless.js:129-131 | against a daemon whose names are trimmed, a successful remove-by-ssid leaves one network fewer with the ssid if any had it, and the count unchanged if none did |
| Wireless.PaddedUntouched | lib/wireless.js:129-143 | as written, a by-name command for an ssid with a blank at either end sends only the listing and leaves the daemon as it was, so a stored `" x"` is never removed, enabled, disabled or selected |
| Wireless.RemoveShownStep | lib/wireless.js:130 | a successful removal takes the network out of the count of names as listed |
| Wireless.RemoveTrimmedCount | lib/wireless.js:129-131 | corrected remove-by-name, comparing with the trimmed ssid: when it succeeds one network fewer is listed under the trimmed name if any was, and the count is unchanged if none was |
| Wireless.Wireless.constructor | lib/wireless.js:19-24 | `wlan0` by default, with a fresh client on the same interface |
| Wireless.Wireless.GetState | lib/wireless.js:43-51 | one `status` command; the state of the parsed record |
| Wireless.Wireless.GetMode | lib/wireless.js:56-63 | one `status` command; the mode of the parsed record |
| Wireless.Wireless.AddOrUpdateNetwork | lib/wireless.js:97-127 | the exchange equals the specification `Reconcile` against the starting daemon |
| Wireless.Wireless.OnNetwork | lib/wireless.js:129-143 | find the network, then send the command with its id, or nothing when none has the ssid |
| Wireless.Wireless.RemoveNetwork | lib/wireless.js:129-131 | `OnNamed` with `remove_network` |
| Wireless.Wireless.EnableNetworks | lib/wireless.js:133-135 | `OnNamed` with `enable_network` |
| Wireless.Wireless.DisableNetwork | lib/wireless.js:137-139 | `OnNamed` with `disable_network` |
| Wireless.Wireless.SelectNetwork | lib/wireless.js:141-143 | `OnNamed` with `select_network` |
| Wifi.StateRefines | lib/wifi.js:20-30 | the three-way state is `ap` exactly when lib/wireless.js's mode is `ap`, and `connected` exactly when its state is `connected` |
| Wifi.ModeAgrees | lib/wifi.js:35-37 | both libraries give the same mode |
| Wifi.GetState | lib/wifi.js:20-30 | one `status` command; the three-way state of the parsed record |
| Wifi.GetMode | lib/wifi.js:35-37 | one `status` command; the mode of the parsed record |
| ApCtl.Merge | lib/apctl.js:117-122 | `Object.assign(DEFAULTS, base, options)` keeps one entry per name |
| ApCtl.MergeGet | lib/apctl.js:117-122 | each merged property is the caller's if given, else the base value if there is one, else the old default |
| ApCtl.MergeShareMethod | lib/apctl.js:116-122 | unless the caller sets them, `share_method` is `nat` exactly when `ifaceInternet` is truthy, `virt` is `false` and `ssid` is the argument |
| ApCtl.MergeBaseKey | lib/apctl.js:117-122 | a base property the caller does not set keeps its base value |
| ApCtl.MergeLeaks | lib/apctl.js:117 | the defaults are shared: an option one call sets outside the base keys is still set for a later call that does not set it |
| ApCtl.RenamedEntry | lib/apctl.js:97-101 | the four `PROPS_PRE_NO` names become `NO_<NAME>` with the negated truth value as 1/0; `iface` and `ifaceInternet` become `WIFI_IFACE` and `INTERNET_IFACE`; other names are upper-cased; booleans become 1/0 and nil `''` |
| ApCtl.Transform | lib/apctl.js:124-137 | the transform assigns into a fresh object, one entry per output name |
| ApCtl.TransformClean | lib/apctl.js:129-136 | no output value is a boolean or nil and no output name has a lower-case letter |
| ApCtl.TransformGet | lib/apctl.js:124-137 | when no other option lands on the same output name, the output holds exactly the option's renamed value |
| ApCtl.DefaultsDistinct | lib/apctl.js:50-79 | the defaults name each property once |
| ApCtl.MergeTest | lib/apctl.js:117-122 | `normalize('test')` on the untouched defaults replaces `ssid`, `ifaceInternet`, `share_method` and `virt` in place |
| ApCtl.NormalizeTest | test/apctl.test.js:6-36 | `normalize('test')` on the untouched defaults gives exactly the table the unit test expects |
| ApCtl.ConfigPath | lib/apctl.js:196 | a path found is never empty |
| ApCtl.ConfigPathAbsent | lib/apctl.js:192-195 | a unit file without `--config ` gives no path |
| ApCtl.ConfigPathBare | lib/apctl.js:9 | `--config <path>` with a bare path gives that path |
| ApCtl.ConfigPathQuoted | lib/apctl.js:9 | `--config "<path>"` at the end of a line gives the text between the quotes |
| ApCtl.FoundAt | lib/apctl.js:192 | the match is the leftmost one |
| ApCtl.LastQuote | lib/apctl.js:9 | the greedy `(.+)"` ends at the last quote on the line |
| ApCtl.RunLength | lib/apctl.js:9 | the bare token is the longest run without space, tab, line break or quote |
| ApCtl.ConfigureWith | lib/apctl.js:185-205 | no unit file is an error naming the service; no `--config` is another error; without properties the config file is read; with them it is written at the path found |
| ApCtl.ConfigureWrites | lib/apctl.js:197-204 | the file written holds every normalized property and the parsed file's other properties unchanged |
| ApCtl.Controller.constructor | lib/apctl.js:11-79 | the service name starts as `create_ap` and the defaults as `DEFAULTS` |
| ApCtl.Controller.Normalize | lib/apctl.js:109-138 | a falsy ssid changes nothing and gives nothing; a non-string ssid is the options object; otherwise the defaults become the merge and the result is its transform |
| ApCtl.Controller.GetServiceName | lib/apctl.js:140-142 | returns the current service name |
| ApCtl.Controller.SetServiceName | lib/apctl.js:144-149 | a falsy name is ignored; the current name is returned either way |
| ApCtl.Controller.Configure | lib/apctl.js:185-205 | normalizes first, so the defaults change even when a later step fails, then the file steps of `ConfigureWith` |
| Apc.NormalizeNothing | lib/apc.js:118 | `normalize` gives nothing exactly when its first argument is falsy |
| Apc.PropsClean | lib/apc.js:146-148 | no output name has a lower-case letter and no value is nil |
| Apc.PropsGet | lib/apc.js:137-148 | each base property ends up under its upper-case name: the caller's value when given, otherwise the base value; so a caller's own `wifi_iface` replaces the interface resolved from it |
| Apc.SilentGet | lib/apc.js:137-144 | a base property the caller is silent about keeps its base value |
| Apc.PropsDefaults | lib/apc.js:137-144 | with a silent caller: `GATEWAY` is `10.1.1.1`, `NO_VIRT` is 1, `SHARE_METHOD` is `nat` exactly when an internet interface is set, `WIFI_IFACE` is the resolved interface |
| Apc.DefaultPhy | lib/apc.js:13 | the default `phy0` refers to phy 0 |
| Apc.NormalizeDefaultIface | lib/apc.js:127-130 | without a caller `wifi_iface`, `normalize` fails when the listing has no interface for phy 0, and otherwise builds the properties on that interface |
| Apc.NormalizedWritable | lib/apc.js:146-148 | what `normalize` produces has distinct upper-case names |
| Apc.ConfigureSpec | lib/apc.js:59-81 | no unit file or no `--config` is an error; without properties the config file is read; with them the bundled defaults, overridden by every property, are written to the config file |
| Apc.Controller.constructor | lib/apc.js:21-23 | only a missing service name takes the default `create_ap` |
| Apc.Controller.Configure | lib/apc.js:59-81 | a `normalize` failure ends the call; otherwise the file steps under this instance's service name |
| Ap.FlagCamelCase | lib/ap.js:76-80 | a camel-case name of two or more characters becomes `--` plus its dashed lower-case form |
| Ap.NoVirtFlag | lib/ap.js:65 | `noVirt` becomes `--no-virt` |
| Ap.KebabLower | lib/ap.js:79 | a name of lower-case letters and digits is kept as it is |
| Ap.FlagShape | lib/ap.js:79 | long flags start with `--` and carry no upper-case letter, `_` or space |
| Ap.OptArgsSpec | lib/ap.js:75-84 | every option's flag is on the command line, every non-boolean value too, and no boolean ever is |
| Ap.OptArgsAppend | lib/ap.js:75-84 | options are turned into arguments one after another, in order |
| Ap.Merge | lib/ap.js:61-67 | the merged options name each property once |
| Ap.MergeGet | lib/ap.js:61-67 | a property holds the caller's last defined value for it, and its old value when the caller gives none |
| Ap.MergeKeepsOrder | lib/ap.js:61-67 | the defaults stay first, in their places |
| Ap.MergedDefaults | lib/ap.js:61-67 | `g` and `noVirt` come first with the caller's value or the default; `--no-virt` is always on the command line, even for `noVirt: false` |
| Ap.CreateDefaults | lib/ap.js:41-105 | with a name and an empty options object, the command line is the script, `-g 10.1.1.1 --no-virt -n`, `wlan0` and the name |
| Ap.ArgvBare | lib/ap.js:87-102 | without internet interface and password the line ends in `-n`, the interface and the name |
| Ap.ArgvHead | lib/ap.js:102 | the script is first and the options follow |
| Ap.ArgvTail | lib/ap.js:86-102 | after the options: `-n` when there is no internet interface, then the interface, the internet interface if any, the name, and the password last when truthy |
| Ap.CommandLine | lib/ap.js:41-104 | a missing script is an error naming its path; missing options are the `TypeError`; a failing phy resolution is that error; otherwise the line is the argv joined by spaces |
| Ap.CreateNeedsOptions | lib/ap.js:41-51 | a command line is built only when the script exists and an options object was passed; with the script present, a name alone or `undefined`/`null` options fail with the `TypeError` of reading `options.iface` |
| Ap.BuildArgv | lib/ap.js:72-102 | the pushes build exactly `Argv` |
| Ap.PushOptions | lib/ap.js:75-84 | the `forEach` pushes exactly `OptArgs` of the options |
| Ap.PushOption | lib/ap.js:76-83 | one turn pushes the flag, then the value unless boolean |
| Ap.Create | lib/ap.js:41-105 | an `AP` is made exactly when the command line could be built, fresh and in its initial state |
| Ap.FinishSound | lib/ap.js:149-156 | `_close` keeps the lifecycle invariant |
| Ap.EmitSound | lib/ap.js:130 | emitting any event but `close` keeps the invariant |
| Ap.StdoutSound | lib/ap.js:126-140 | stdout handling keeps the invariant |
| Ap.CloseSound | lib/ap.js:158-173 | `close` keeps the invariant |
| Ap.StepSound | lib/ap.js:111-173 | every input keeps the invariant |
| Ap.RunSound | lib/ap.js:111-173 | every sequence of inputs keeps the invariant |
| Ap.Lifecycle | lib/ap.js:149-173 | whatever happens, the process is signalled at most once, and `close` is emitted at most once, exactly when the process has been dropped |
| Ap.ActiveAfterStdout | lib/ap.js:122-134 | after output the AP is active exactly when it is not being killed and it was started or this output says `AP-ENABLED` |
| Ap.DoneFinishes | lib/ap.js:135-139 | while killing, output with `done` drops the process and emits `close` after `stdout` |
| Ap.CloseSpec | lib/ap.js:158-173 | `close` without a process changes nothing; with one it makes the AP inactive, signals only if no kill was under way, and drops the process exactly when the wait failed |
| Ap.EventsGrow | lib/ap.js:111-173 | events are only ever appended |
| Ap.AP.constructor | lib/ap.js:111-120 | attached, neither started nor killing, no events, no signals |
| Ap.AP.Finalize | lib/ap.js:149-156 | the new state is `Finish` of the old |
| Ap.AP.HandleStatusData | lib/ap.js:126-140 | the new state is `OnStdout` of the old |
| Ap.AP.HandleErrorData | lib/ap.js:142-147 | a `stderr` event is appended |
| Ap.AP.HandleProcessError | lib/ap.js:116 | an `error` event is appended |
| Ap.AP.Close | lib/ap.js:158-173 | the new state is `OnClose` of the old |
| Iw.SpanRun | lib/iw.js:25 | a digit or hex run is the longest one |
| Iw.LastAtLast | lib/iw.js:21 | the greedy `(Unnamed.*) interface` ends at the last ` interface` on the line |
| Iw.Leftmost | lib/iw.js:19-47 | a pattern fails exactly when it matches nowhere, and otherwise gives the group at the leftmost match |
| Iw.TakeShape | lib/iw.js:19-47 | each group has the shape its pattern says: a rest of line is non-empty and stops at the line break, an address is 17 hex or colon characters, a `wdev` is `0x` plus hex digits |
| Iw.AlwaysMatches | lib/iw.js:25 | `ifindex (\d*)` and `channel ([.\d]*)` match wherever their literal occurs |
| Iw.MatchOccurs | lib/iw.js:19-47 | the text a match gives stands right after the literal |
| Iw.ParseDevFields | lib/iw.js:13-51 | each field of a device is present exactly when its pattern occurs in the block, with the group of the leftmost match; `iface` comes from `Interface`, else from `Unnamed…`; every device carries its block's phy |
| Iw.PiecesJoin | lib/iw.js:60 | splitting before a lookahead loses nothing: the pieces join back to the text |
| Iw.PhyPieces | lib/iw.js:67 | each piece of the output holds one phy block |
| Iw.UncutFrom | lib/iw.js:67 | text where the lookahead never matches stays one piece |
| Iw.ParsePhyIndex | lib/iw.js:53-64 | a block gives devices exactly when it has a `phy#N` header line, and every device carries that index |
| Iw.SortPermutes | lib/iw.js:70 | the sort only reorders |
| Iw.SortOrders | lib/iw.js:70 | when every phy is a number, devices come out in phy order |
| Iw.SortStable | lib/iw.js:70 | the devices of each phy keep their order |
| Iw.ParseDevListSpec | lib/iw.js:66-71 | the devices of all phy blocks, sorted by phy when every phy is a number, each phy's devices in output order |
| Iw.NoPhyNoDevices | lib/iw.js:53-64 | output without any `phy#` lists no device |
| Iw.NotFoundListsNothing | test/iw.test.js:5 | the `nl80211 not found.` message lists no device |
| Iw.SortedAsInTest | test/iw.test.js:43-67 | a phy 1 device listed before two phy 0 devices ends up last, and the phy 0 devices keep their order |
| Iw.FindFirst | lib/iw.js:78 | the lookup finds nothing exactly when no device has an index and the phy, and otherwise finds the first such |
| Iw.GetDevByPhySpec | lib/iw.js:77-88 | the interface of the first device with an index and the wanted phy; an error `No dev found for phy#N` when there is none; devices without an index are never chosen |
| Iw.ResolvePhySpec | lib/ap.js:51-54 | a name without `phy` is kept; a name with `phy` and a number resolves to a listed interface of that phy or fails |
| Ifacer.FirstPickedNone | lib/ifacer.js:107-108 | nothing is picked exactly when no wireless-LAN entry matches the token |
| Ifacer.FirstPickedAt | lib/ifacer.js:107-108 | what is picked is the first wireless-LAN entry the token matches |
| Ifacer.ResolvePassThrough | lib/ifacer.js:103-105 | a missing, empty or `wlan…` token comes back as it is, whatever the hardware |
| Ifacer.ResolveSpec | lib/ifacer.js:102-111 | any other token gives the `logicalname` of the first wireless-LAN entry it picks (`onboard` one without bus information, otherwise one whose bus information starts with the token), and fails naming the token exactly when there is none |
| Utils.ToUpper | lib/utils.js:3-11 | a falsy value comes back unchanged; anything else becomes its string, of the same length, with no lower-case letter and equal to it up to case |
| Utils.ToLower | lib/utils.js:13-21 | the mirror image of `ToUpper` |
| Utils.ToUpperIdempotent | lib/utils.js:3-11 | applying `toUpper` twice is applying it once |
| Utils.ToLowerIdempotent | lib/utils.js:13-21 | applying `toLower` twice is applying it once |
| Utils.ToLowerMatches | lib/utils.js:13-21 | `toLower(s)` equals a lower-case word exactly when `s` spells it in any mix of cases |
| Record.BuildKeys | lib/wpa.js:39-42 | a key is in the record exactly when some entry has it |
| Record.BuildLastWins | lib/wpa.js:41 | a key holds the value of the last entry that has it |
| Record.BuildConcat | lib/wpa.js:39-42 | assigning two blocks one after the other is assigning the first and letting the second overwrite it |

## Left out

- Processes are not modelled: spawning `wpa_cli`, `iw`, `lshw`, `create_ap` and `lsusb`/`iwconfig`, `execa.shell`, and `which`. What they print is a parameter. A command becomes a line appended to a trace plus one step of the modelled daemon.
- Promises, `async`/`await` and `PromiseA.mapSeries` are not modelled. Their sequencing is modelled as sequential calls, where a failure ends the chain.
- Service management is not modelled: `sysctlx` start/stop/state/enable/disable/isActive/isEnabled in lib/apctl.js and lib/apc.js. These are calls into a foreign library with no logic of their own. `status.file` is the `unit` parameter.
- The file steps `fs.readFileSync`, `nprops.parse` and `nprops.stringify` are not modelled. Reading a properties file is a function parameter. Writing is a `Written(path, data)` outcome. The bundled `create_ap.conf` read by lib/apc.js is the `bundled` parameter.
- The `AP.create` script path (`CREATE_AP`) and whether it exists are parameters. `fs.existsSync` is not modelled.
- EventEmitter machinery is not modelled: listeners, wildcard forwarding in lib/wireless.js:26-28, and the `status`, `scanned`, `networks`, `detect` and `scan_result` events. Emitted events are an appended list where the lifecycle depends on them (`Ap`, `WpaMonitor`). They are dropped where nothing reads them.
- The 5-second timeout in `AP.close` is not modelled as a timer. It is the input `failed`. The wait for `close` is split into `OnClose` and a later stdout `done`.
- `Buffer` to string conversion is not modelled: data is text.
- Only ASCII case mapping and ASCII whitespace for `trim` are modelled.
- Iw.ParseDevFields: `txpower` (`parseFloat`) is not modelled, because it is floating point.
- Iw.SortOrders: the stable sort is modelled with a `NaN` phy comparing as equal, as `a.phy - b.phy` does. Ordering is stated only when every phy is a number.
- `iw.dev_list`, `iw.scan` and `iw.exec` are not modelled: the listing is a parameter. `find_dev_by_phy` and `get_dev_by_phy` are modelled over it.
- The `lshw` call and `JSON.parse` in lib/ifacer.js are not modelled. `resolve` works on the parsed list, reading only `capabilities.wireless`, `businfo` and `logicalname`. An entry with no `capabilities` object, which would throw, is not represented.
- lib/iu is not part of this model. lib/wifi.js and lib/wpa-monitor.js call `iu.resolve` first, and the model takes the interface as already resolved.
- The module-style `wpa.*(iface, …)` API that lib/wifi.js calls is taken to be the `WPA` class on that interface.
- `Wireless`'s `open`, `close`, `scan` (`iwlist`), `listInterfaces` (`ifconfig`), `up`, `down` and `reboot` are not modelled. `wifi.scan`, `wifi.up`, `wifi.down` and `wifi.reset` are not modelled. All of these are process or foreign-library calls.
- Ap.Merge: only a flat `opts` object of values is modelled. lodash's recursive merge of nested objects and arrays is not modelled.
- Ap.Dasherize: inflection's `underscore` is modelled for camel-case names only (`_` before an upper-case letter, one leading `_` dropped, lower-cased). Its handling of `::` and of acronyms is not modelled.
- Ap.CreateArgs: the `TypeError` of `create(name)` without options, or of `undefined` or `null` in place of the options, is the error `NoOptions`. Its text, like every `TypeError` text below, is that of current Node versions; older ones say `Cannot read property 'iface' of undefined` (or `of null`). The wording depends on the runtime, not on the library.
- Wpa.Message: the `MissingScanField` error carries the current Node text `Cannot read properties of undefined (reading 'trim')`; older versions say `Cannot read property 'trim' of undefined`.
- WpaMonitor.Monitor.Close: with no process attached the error carries the current Node text `Cannot read properties of null (reading 'kill')`; older versions say `Cannot read property 'kill' of null`.
- JavaScript orders integer-like keys of an object first. Objects here keep plain insertion order, which is what every key the library uses gets.
- Wpa.Client.AddNetwork: `parseInt` is modelled on a leading run of decimal digits with an optional sign. `NaN` is a distinct value, printed as `NaN` when joined into a command.
- The P2P section of lib/wpa.js holds only a comment and nothing is modelled from it.
- Wpa.Client.Exec: the shell reads only the arguments. The interface name and the verb are taken to be plain words. Other shell syntax is not modelled: `;`, `|`, `&`, redirections, `$` expansions, globs, `#` comments, `~`, and a newline as a command separator.
- Wpa.Client.Exec: on a shell syntax error the call fails with `Command failed: ` plus the line. Node's message would also carry the shell's stderr, which is not modelled.
- Reconciler.ReconcileCount: promised only for an ssid without a single quote. A quote breaks the shell quoting of `setNetworkSettingString` (see Findings). The same holds for `ReuseCount`, `AddCount`, `ChainCount`, `ReusedCount`, `AddedCount`, `ChainTracks`, `WriteTracks` and `WriteStepTracks`.
- Reconciler.ExistingSpec: stated only for a daemon whose names are trimmed and free of tabs and line breaks. A name with a blank at either end is listed trimmed and never matches itself (see Findings); `ShownSpec` covers every name free of tabs and line breaks for the corrected lookup.
- Reconciler.ListingRows: stated only for trimmed names; `ListingListed` gives the listing of any names free of tabs and line breaks, trimmed.
- Reconciler.ReuseCount: stated only for a trimmed ssid and trimmed names, for the reason under `ExistingSpec`.
- Reconciler.AddCount: stated only for a trimmed ssid and trimmed names, for the reason under `ExistingSpec`.
- Reconciler.ReconcileCount: stated only for a trimmed ssid and trimmed names. As written, an ssid with a blank at either end gets a new network on every call (`PaddedAddsAgain`); the corrected `ReconcileTrimmed` keeps the promise for it (`ReconcileTrimmedCount`).
- Wireless.OnNamedSent: stated only for trimmed names. As written, a name with a blank at either end is never acted on (`PaddedUntouched`).
- Wireless.RemoveNamedCount: stated only for trimmed names. As written, removing a name with a blank at either end removes nothing (`PaddedUntouched`); the corrected `OnNamedTrimmed` keeps the promise for it (`RemoveTrimmedCount`).
- Reconciler.SettingArgs: what the daemon hears is stated only for a plain id and a text without a single quote.

## Findings

| source | as written | input that shows it | evidently intended | confidence | as-written member | corrected member |
|---|---|---|---|---|---|---|
| lib/wpa.js:67-72 | the scan parse keeps rows with more than 3 tab fields, then reads field 4 for the ssid, so a row with exactly 4 fields reads `undefined.trim()` and the whole `scan()` call fails | a `scan_result` table with the row `00:11:22:33:44:55\t2412\t-40\t[ESS]` (a hidden network printed without an ssid column) | a row without an ssid column gives a row with an empty ssid | not executed | Wpa.ScanRowsAsWritten, Wpa.ScanFourFieldRow | Wpa.ScanRows, Wpa.ScanRowsAgree |
| lib/wpa.js:115-118 | `setNetworkSettingString` wraps the value in `'"…"'`, and `exec` hands the joined line to `/bin/sh -c`; a single quote in the value ends the shell's quoting early | an ssid `Bob's iPhone`: the shell finds a quote left open and runs nothing, after `addOrUpdateNetwork` has already added a network; an ssid `a'b'c` is stored as `abc` | every text reaches the daemon as `"text"`, single quotes included | not executed | Wpa.QuoteUnterminated, Wpa.QuoteDrops | Wpa.QuoteEscaped, Wpa.QuoteEscapedHeard |
| lib/wireless.js:84-86 | `findNetworkBySsid` (and `wifi.findNetworkBySSID`, lib/wifi.js:51-54) compares the listed names with `===`, but the listing trims every name (lib/wpa.js:97), so an ssid with a blank at either end never matches its own network | a daemon holding one network ` x`: each successful `addOrUpdateNetwork(' x', …)` adds another network ` x`, and `removeNetwork(' x')` removes nothing | a name finds the network stored under it, blanks included | not executed | Reconciler.PaddedNotFound, Reconciler.PaddedAddsAgain, Wireless.PaddedUntouched | Reconciler.ReconcileTrimmedCount, Wireless.RemoveTrimmedCount |
