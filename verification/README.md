# wifimanager in Dafny

This project models the core of `homesound/wifimanager`, a Go library that
switches a Linux box between two modes. In client mode it runs
`wpa_supplicant` and joins a known network. In hotspot mode it runs `hostapd`
and `dnsmasq` and offers its own access point.

The model has three parts.

- **The known-networks file.** `wpa_supplicant.conf` is read as a list of
  `network={ … }` blocks. Each block yields its `ssid=`, `#psk=` and `psk=`
  values, and a network is written back as a block (`WpaConf`,
  `WpaConfLaws`). The block regular expression `(?s)network={(.*?)}` becomes
  the scanner `WpaConf.Blocks`. The per-line expressions become prefix checks
  on the trimmed line. Both follow the source's matching rules: the first
  `network={`, the shortest body up to `}`, `.` not matching a line feed, and
  a greedy ssid capture.
- **Adding networks** (`WpaSupplicant`). `WPAPassphrase` builds a block,
  either the open-network template or the output of the `wpa_passphrase`
  helper. `AddNetworkConf` appends that block to the file text.
- **Daemon handles and the mode loop** (`WifiManager`, `WpaSupplicant`,
  `Hostapd`, `SmartHotspot`).
  - The manager is an immutable record: the configuration path, the known
    ssids, the three daemon handles (present or absent) and the dnsmasq
    configuration path.
  - Every external command is an oracle in `WifiManager.Commands`: the
    supplicant kill, the interface reset, `runCmd` and whether `wrapCmd`
    yields a handle.
  - One iteration of the loop in `StartSmartHotspot` is `SmartHotspot.Tick`.
  - Go's `error` results are `Option`/`Result` values (`Results`).
  - A nil dereference is `Exec.Panicked`. `log.Fatalf` is `Exec.Exited`.

Times are integers in nanoseconds, the unit of Go's `time.Duration`. The
grace window is `10 * time.Second`.

`UpdateKnownSSIDs` calls `ParseWPASupplicantConf` from the external
`go-networkmanager` package. That package is not part of this model. It is
taken to behave like the local `ParseWPASupplicantConf`.

## Model

| member | source | states |
|---|---|---|
| Text.Split | wpa_conf_parser.go:36 | the pieces contain no separator and join back, with the separator, to the input |
| Text.SplitJoin | wpa_conf_parser.go:36 | splitting a join of separator-free lines gives back exactly those lines |
| Text.ContainsAt | wpa_conf_parser.go:45-57 | `strings.Contains`, defined by recursion on the text, holds exactly when the pattern starts some suffix of the text |
| Text.TrimSpace | wpa_conf_parser.go:44 | the result neither starts nor ends with white space and is no longer than the input |
| Text.TrimSpaceIsInfix | wpa_conf_parser.go:44 | trimming keeps an infix and cuts off only white space on either side |
| WpaConf.MapSubexpNames | wpa_conf_parser.go:77-84 | the keys are the names after index 0; a name that is not repeated later maps to the capture at its own position |
| WpaConf.SsidSubmatch | wpa_conf_parser.go:12 | matches exactly when the line starts with `ssid="` and a `"` follows on the same line; the capture runs to the last such quote |
| WpaConf.PrefixSubmatch | wpa_conf_parser.go:13-14 | matches exactly when the line starts with the prefix; the capture is the rest of the first line |
| WpaConf.ScanLine | wpa_conf_parser.go:43-63 | classification precedence: only an `ssid=` line changes the ssid, only a line with `#psk=` and no `ssid=` changes the password, only a line with `psk=` and neither of the others changes the psk; at most one field changes; as written, the password can only become empty |
| WpaConf.ScanLines | wpa_conf_parser.go:43-64 | as written, a block read from empty fields never yields a password |
| WpaConf.ParseNetwork | wpa_conf_parser.go:35-75 | a network is returned only when its ssid is non-empty, and its password is always empty |
| WpaConf.ParseNetworkCorrected | wpa_conf_parser.go:35-75 | with the `#psk=` line read through its own group names, a network is still returned only when its ssid is non-empty |
| WpaConf.Blocks | wpa_conf_parser.go:11 | at most one body per `network={` in the text; every body is free of `}` and occurs in the text between `network={` and `}` |
| WpaConf.BlockCapture | wpa_conf_parser.go:99 | the `network` group of a block match is exactly the text between `network={` and `}` |
| WpaConf.Collect | wpa_conf_parser.go:98-104 | at most one network per block, every one named; as written, no password recovered |
| WpaConf.ParseConf | wpa_conf_parser.go:94-106 | never an error; at most as many networks as `network={` occurrences; every network has a non-empty ssid and an empty password |
| WpaConf.ParseConfCorrected | wpa_conf_parser.go:94-106 | never an error; at most one network per `network={`; every network named |
| WpaConf.ParseSupplicantConf | wpa_conf_parser.go:86-92 | fails exactly when the file is missing or unreadable; otherwise parses the text as written: at most one network per `network={`, every one named and with an empty password, and the same ssids and psks, in order, as the corrected parser finds |
| WpaConf.ScanLinesAgree | wpa_conf_parser.go:51-56 | the group names used for the `#psk=` line do not affect the ssid or psk read from a block |
| WpaConf.CollectAgrees | wpa_conf_parser.go:98-104 | both group-name choices yield the same (ssid, psk) list from the same blocks |
| WpaConf.ParseConfAgreesOnKeys | wpa_conf_parser.go:94-106 | the as-written and corrected parsers agree on every ssid and psk, in order |
| WpaConfLaws.SkipGap | wpa_conf_parser.go:11 | text that holds no `network={`, and does not end inside one, contributes no block |
| WpaConfLaws.BlockAt | wpa_conf_parser.go:11 | a block at the front is matched first and the search resumes after its `}` |
| WpaConfLaws.BlocksFramed | wpa_conf_parser.go:97 | blocks separated by line feeds are found, all of them and in text order |
| WpaConfLaws.SsidLine | wpa_conf_parser.go:45-50 | an `ssid="…"` line sets the ssid to the text between the quotes and nothing else |
| WpaConfLaws.PskLine | wpa_conf_parser.go:57-62 | an indented `psk=` line sets the psk to the rest of the line and nothing else |
| WpaConfLaws.CommentLine | wpa_conf_parser.go:51-56 | a `#psk=` line never changes the ssid or the psk |
| WpaConfLaws.CommentLineAsWritten | wpa_conf_parser.go:51-56 | as written, an indented `#psk=` line sets the password to the empty string, whatever single-line rest without trailing white space follows; a rest holding `ssid=` is excluded because that line takes the ssid branch |
| WpaConfLaws.CommentLineCorrected | wpa_conf_parser.go:51-56 | read through its own group names, a `#psk=` line sets the password to the rest of the line |
| WpaConfLaws.InertLine | wpa_conf_parser.go:43-63 | a line without an `s` (no `ssid=`, no `psk=`) changes nothing |
| WpaConfLaws.ScanLinesSnoc | wpa_conf_parser.go:43 | the lines of a block are read first to last |
| WpaConfLaws.LastSsidWins | wpa_conf_parser.go:43-50 | a later ssid line overwrites whatever the earlier lines set |
| WpaConf.AsConf | wpa_conf_parser.go:26-33 | the written block starts with a line feed and `network={`, ends with `}`, and is 34 characters longer than the ssid, password and psk together; `AsConfBlocks` and `RoundTrip` relate it to the parser |
| WpaConfLaws.AsConfBlocks | wpa_conf_parser.go:26-33 | the text `AsConf` writes holds exactly one block |
| WpaConfLaws.ConfBodyLines | wpa_conf_parser.go:26-36 | the trimmed body of that block splits into the ssid, `#psk=` and `psk=` lines |
| WpaConfLaws.RoundTrip | wpa_conf_parser.go:26-33 | parsing what `AsConf` wrote gives back the same ssid and psk (and, as written, an empty password) for every network the format can carry |
| WpaConfLaws.RoundTripCorrected | wpa_conf_parser.go:26-33 | the corrected parser gives back the whole network, password included |
| WpaConfLaws.PasswordLost | wpa_conf_parser.go:54 | for the network with ssid `home`, psk `0123abcd` and password `secret`, the parser as written returns an empty password and the corrected one returns `secret` |
| WpaConfLaws.TestBlocks | wpa_conf_parser_test.go:11-29 | the test text, with its stray `network=must fail`, `network=}` and `{`, holds exactly the two real blocks |
| WpaConfLaws.ParseTestConf | wpa_conf_parser_test.go:31-40 | parsing the test text gives exactly two networks: ssid `ssid-1` with psk `pw-1`, then ssid `ssid-2` with psk `pw-2`, both with empty passwords |
| WifiManager.NewWifiManager | wifimanager.go:21-26 | fails exactly when the configuration file does not exist, with the source's message; a new manager knows no ssids and has no daemon |
| WifiManager.UpdateKnownSSIDs | wifimanager.go:36-47 | a read error is returned and the manager is unchanged; otherwise the known set becomes exactly the parsed ssids and nothing else changes |
| WifiManager.UpdateIdempotent | wifimanager.go:36-47 | refreshing twice from the same file is the same as refreshing once |
| WifiManager.AllSighted | wifimanager.go:59-76 | every reported ssid is known and was seen by some interface whose scan succeeded |
| WifiManager.ScanErrors | wifimanager.go:58-64 | the collected error text is empty exactly when every scan succeeded |
| WifiManager.ScanForKnownSSID | wifimanager.go:49-99 | a listing error is passed on; no interface is an error; with no hits the result is an error exactly when some scan failed; every reported ssid is known and was seen by a working scan |
| WifiManager.SightedCount | wifimanager.go:65-75 | a known ssid is reported once per interface whose successful scan saw it, an unknown one never |
| WifiManager.ScanReportsEverySighting | wifimanager.go:78-82 | on success, every known ssid seen by a working scan is reported, however many other scans failed |
| WpaSupplicant.WPAPassphrase | wpa_supplicant.go:14-41 | an empty password gives the trimmed open-network block without running the helper; otherwise a helper command line that does not parse panics, and the result is the helper's trimmed output, or an error exactly when the helper failed to start or finish |
| WpaSupplicant.OpenBodyParses | wpa_supplicant.go:16-24 | the open-network block parses to the given ssid with an empty psk |
| WpaSupplicant.AddNetworkConf | wpa_supplicant.go:71-97 | the block is appended between line feeds; when no block could be made, the text is unchanged and the passphrase error returned; it panics exactly when `WPAPassphrase` does |
| WpaSupplicant.AddAllFramed | wpa_supplicant.go:89-95 | appending several networks to a file leaves their blocks one after the other, framed by line feeds |
| WpaSupplicant.AddedNetworksParse | wpa_supplicant_test.go:54-91 | after several networks are appended to an empty file, parsing it gives exactly those ssids with the psks their blocks carried, in order |
| WpaSupplicant.KnownAfterAdding | wifimanager.go:36-47 | refreshing the manager after those appends makes it know exactly the requested ssids |
| WpaSupplicant.StartWPASupplicant | wpa_supplicant.go:43-54 | a failed reset is reported and changes nothing; an unwrappable command line panics; otherwise the handle is recorded for `-Dnl80211 -i<iface> -c<conf>` |
| WpaSupplicant.StopWPASupplicant | wpa_supplicant.go:56-69 | no handle: nothing happens; a failed kill is reported and keeps the handle; a successful one clears it; nothing else changes |
| WpaSupplicant.StartThenStop | wpa_supplicant.go:43-69 | starting and then stopping the supplicant gives back the state started from |
| Hostapd.StartHotspot | hostapd.go:11-51 | the supplicant is stopped first and that error ignored; a failed reset or ifconfig is reported and sets no handle; hostapd is recorded exactly when its command line wraps; success exactly when every step works, and then both handles and the configuration path are set |
| Hostapd.StopHotspot | hostapd.go:53-72 | with neither handle it returns the manager unchanged; with exactly one it panics; otherwise both handles and the configuration path are cleared and nothing else changes; never an error |
| Hostapd.StopHotspotIdempotent | hostapd.go:53-56 | stopping a stopped hotspot changes nothing more |
| Hostapd.DnsmasqConfLines | hostapd.go:31-37 | the dnsmasq configuration holds `no-resolv`, `bind-interfaces`, `interface=<iface>`, `dhcp-authoritative` and the DHCP range, one per line |
| Hostapd.StartThenStopHotspot | hostapd_test.go:9-21 | with working commands, starting and then stopping the hotspot both succeed and leave no daemon |
| Hostapd.StartHotspotIgnoresStop | hostapd.go:12 | when the initial supplicant kill fails, the hotspot still starts and the supplicant stays recorded beside it |
| Hostapd.HalfStartedHotspotPanics | hostapd.go:42-46 | when only the dnsmasq command line fails to wrap, hostapd stays recorded and the next `StopHotspot` panics |
| SmartHotspot.Start | smarthotspot.go:16-22 | a failed interface bring-up exits the process; otherwise the loop starts measuring from now |
| SmartHotspot.LeaveHotspot | smarthotspot.go:32-47 | stop the hotspot, then start the supplicant; the timestamp is reset only when the supplicant starts; it panics exactly on a half-recorded hotspot or an unwrappable supplicant |
| SmartHotspot.EnterHotspot | smarthotspot.go:48-57 | a failed supplicant kill changes nothing; otherwise the hotspot start decides the handles and the timestamp is kept |
| SmartHotspot.Tick | smarthotspot.go:24-61 | an iteration never exits the process and never changes the known set or the configuration path |
| SmartHotspot.ScanFailureChangesNothing | smarthotspot.go:27-28 | a failed scan leaves the state unchanged |
| SmartHotspot.TickFiresAtMostOneRule | smarthotspot.go:32-57 | at most one rule fires per iteration: leaving the hotspot needs a hit, entering it needs none |
| SmartHotspot.StaysConnected | smarthotspot.go:32 | with a known network in range and no hotspot, nothing changes |
| SmartHotspot.StaysHotspot | smarthotspot.go:48 | with the hotspot on and no known network in range, nothing changes |
| SmartHotspot.WaitsOutGraceWindow | smarthotspot.go:48 | within ten seconds of the timestamp, no hit changes nothing |
| SmartHotspot.HotspotOnlyAfterSilence | smarthotspot.go:48-57 | the hotspot comes on only after a successful scan with no hit, strictly more than ten seconds after the timestamp, which is the time of loop start or of the last reconnect |
| SmartHotspot.TimestampOnlyOnReconnect | smarthotspot.go:40-45 | the timestamp changes only when the supplicant was started out of hotspot mode, and then to the time read after that start |
| SmartHotspot.LeavesHotspotWhenKnownSeen | smarthotspot.go:32-47 | with working commands, a hit in hotspot mode stops hostapd and dnsmasq and starts the supplicant |
| SmartHotspot.TickKeepsExclusive | smarthotspot.go:24-61 | an iteration that returns never leaves the supplicant and hostapd both recorded |
| SmartHotspot.TickKeepsPaired | smarthotspot.go:24-61 | when every command line wraps, an iteration from paired hotspot handles does not panic and keeps them paired |
| SmartHotspot.RunKeepsInvariants | smarthotspot.go:24-61 | over any number of iterations in which every command line wraps, the loop never panics and keeps both invariants |
| SmartHotspot.Run | smarthotspot.go:24-61 | iterations one per input, stopping at a panic; no input leaves the state as it is, and no run exits the process or changes the known set or the configuration path |
| SmartHotspot.HotspotSoonAfterSighting | smarthotspot.go:16-48 | as written, in client mode a scan that sees a known network leaves the timestamp alone, so with the timestamp at 0 a sighting at 60 s changes nothing and an empty scan at 63 s starts the hotspot |
| SmartHotspot.TickRestamping | smarthotspot.go:10-61 | the iteration as the loop's opening comment describes it: a sighting also moves the timestamp to the scan time; it never exits and keeps the known set and path |
| SmartHotspot.RestampingOnlyMovesStamp | smarthotspot.go:24-61 | the restamping iteration panics exactly when the original does and leaves the same processes running; without a sighting the two iterations are equal |
| SmartHotspot.RunRestamping | smarthotspot.go:24-61 | the restamping loop over a sequence of inputs never exits and keeps the known set |
| SmartHotspot.RunRestampingStamp | smarthotspot.go:10-44 | with a clock that never runs backwards, after any restamping run the timestamp is at least the scan time of every iteration that saw a known network |
| SmartHotspot.HotspotWaitsAfterSighting | smarthotspot.go:10-57 | with the restamping loop and such a clock, the hotspot starts only more than ten seconds after every earlier sighting of a known network |
| SmartHotspot.LoopFromNewManager | smarthotspot.go:9-24 | the loop started on a fresh manager never panics and never runs the supplicant beside the hotspot |

## Left out

- `cmds.go` is not part of this model. Its `wrapCmd` goroutines, output forwarding and `runCmd` argument splitting are concurrency and process I/O. Each command is an oracle outcome in `Commands`.
- `ResetWifiInterface`, `IfUp`, `GetWifiInterfaces`, `WifiScan` and the `wpa_passphrase` helper are foreign calls. They are inputs: `Commands.reset`, the `ifUp` outcome, the `ifaces` result and `HelperRun`. The psk hash itself is not modelled.
- `CurrentSSID` (wifimanager.go:28-34) runs `iwgetid` and only trims its output. It is not used by the rest of the core.
- The `Lock`/`Unlock` around an iteration and the three-second `Sleep` are left out. An iteration is atomic, and the endless loop is `SmartHotspot.Run` over a finite sequence of inputs.
- The two clock reads of an iteration are the inputs `now` and `restampAt`.
- In `AddNetworkConf`, opening, seeking, getting a writer, writing and flushing the file can each fail. Only the text appended and the passphrase error are modelled.
- Creating, writing and removing the dnsmasq temporary file are left out. Its path is the input `Commands.tempConf`, and its text is `Hostapd.DnsmasqConf`.
- The `Start`, `Signal`, `Wait` and `ProcessState` calls on the daemon handles are left out, and so are their errors and log lines.
- Hostapd.StopHotspot: a handle whose `Start` failed has a nil `Process`, so the source would panic there too. The model takes every wrapped command to have started.
- SmartHotspot.Tick: `now.Sub(ts)` saturates at the bounds of a 64-bit `Duration`. The model subtracts unbounded integers, which differs only for clock readings some 292 years apart.
- WifiManager.ScanForKnownSSID: the order of the reported ssids depends on the iteration order of Go's set type. It is left open by returning a multiset.
- Go strings are byte sequences, while the model's strings are sequences of Unicode scalar values. The two agree for valid UTF-8 text, and `Text.IsSpace` follows `unicode.IsSpace`.
- `StartWPASupplicant` (wpa_supplicant.go:50) calls `WrapCmd`. It is taken to behave like `wrapCmd` (cmds.go:28-62), whose outcome is the oracle `Commands.wrap`.
- `simpleexec.ParseCmd` is a foreign call. Whether it parses the `wpa_passphrase` command line is the `Unparsable` outcome of `HelperRun`.
- `bin/smarthotspot/main.go` is command-line glue and is not part of this model.

## Findings

| source | as written | input that shows it | evidently intended | confidence | as-written member | corrected member |
|---|---|---|---|---|---|---|
| wpa_conf_parser.go:54 | the `#psk=` match is mapped through `pskRegex.SubexpNames()`, whose group is `psk`, and is then read as `m["password"]`, which is always missing, so `Password` is always `""` | the block `AsConf` writes for ssid `home`, password `secret`, psk `0123abcd` parses back with password `""` | map through `passwordRegex.SubexpNames()`, so that the `#psk=` comment yields the plaintext password and `AsConf` round-trips | high (the lookup cannot succeed); not executed | WpaConfLaws.PasswordLost | WpaConfLaws.RoundTripCorrected |
| smarthotspot.go:16,44 | the no-known-network timestamp is set at loop start and after a reconnect out of hotspot mode, but not when a scan in client mode sees a known network, so the grace window is measured from the last reconnect rather than from the last sighting | client mode with the timestamp at 0: a scan at 60 s sees the known network `home`, and a scan at 63 s sees nothing and starts the hotspot after 3 s without a known network | also set the timestamp to the scan time whenever a scan sees a known network, so that the hotspot needs more than ten seconds without one, as the comment at smarthotspot.go:10-12 says | medium (the comment states the intent, the code does not keep it); not executed | SmartHotspot.HotspotSoonAfterSighting | SmartHotspot.HotspotWaitsAfterSighting |

`WpaConf.ParseSupplicantConf`, and with it `UpdateKnownSSIDs`, reads the file
with the parser as written, as the source does. `WpaConf.ParseConfAgreesOnKeys`
shows that the defect changes no ssid and no psk, so the known set of
networks is the same under either parser. The corrected parser is
`WpaConf.ParseConfCorrected`, and `WpaConfLaws.RoundTripCorrected` proves its
full round trip.

The model of the loop, `SmartHotspot.Tick` and `SmartHotspot.Run`, keeps the
timestamp as the source does. `SmartHotspot.TickRestamping` is the iteration
with the timestamp also set on every sighting, and
`SmartHotspot.RestampingOnlyMovesStamp` shows that this changes nothing else.
