# REALTIME-WIFI-VIS wire line, in Dafny

REALTIME-WIFI-VIS draws a live Wi-Fi signal map. Collector nodes (Raspberry Pis running
`rpisender.py`) scan the access points around them. Each collector sends one text line
per interval to a dashboard (`local_radar.py`):

```
DATA, <own rssi>, <own mac>, <rssi 1>, <ssid 1>, <mac 1>, ...
```

The dashboard also reads such lines from a serial device. It keeps only lines that carry
the `DATA` marker, logs them, and splits them into tokens. Its other jobs are cycling
through four scenes and loading and saving node positions and names.

This project models both ends of that line, in five modules:

- `Options`: the `Option` datatype.
- `Text`: the parts of Python's `str` and `int` that the scripts use. These are `strip`,
  `split`, `join`, `lower`, `in`, `replace`, `str(n)` and `int(s)`. For `strip()`,
  whitespace is what `str.isspace()` accepts. `split` keeps empty pieces. `int()`
  accepts a sign and single underscores between digits. It skips surrounding whitespace,
  except the information separators U+001C..U+001F, which it refuses.
- `Collector` (`rpisender.py`):
  - parsing the terse `nmcli` listing and converting quality scores to dBm;
  - the stable sort by strength and the cut to twelve neighbours;
  - reading the own RSSI with the `signal: (-\d+) dBm` search;
  - building the report line.
- `Dashboard` (`local_radar.py`):
  - the MAC pattern;
  - the `DATA` filter, the log entries and the tokeniser;
  - the scene toggle and the once-per-tick change check;
  - the position and name store.

  The globals that the script updates in place form the class `Dashboard.Radar`.
- `Wire`: lemmas that connect the two scripts. The dashboard's tokeniser returns exactly
  the parts the collector joined. A BSSID that the collector reads from `nmcli` passes the
  dashboard's MAC pattern.

The outputs of external commands are parameters, as are the serial line, the socket chunk
and the parsed JSON store. Where a parameter is an `Option`, `None` means the following:
- for a command output: the command failed, and the collector takes its `except` branch;
- for the serial line: no line was read, because none was waiting, the port was closed or
  the read raised;
- for the store: the file does not exist or could not be parsed.

The loops that the scripts write as loops are methods with invariants, each proved
against a specification function:
- `Collector.ScanWifi`;
- `Collector.SerialiseReport`;
- `Dashboard.ChunkReports`;
- `Dashboard.Radar.LoadPositionsAndNames`.

## Model

| member | source | states |
|---|---|---|
| Collector.QualityToDbm | rpisender.py:85 | `int(q / 2 - 100)` truncates toward zero: the result is the real value rounded toward zero, from below for non-negative values and from above for negative ones |
| Collector.QualityToDbmBelow200 | rpisender.py:85 | for q ≤ 200 the value is `-((200 - q) div 2)` |
| Collector.QualityToDbmRange | rpisender.py:85 | a quality in 0..100 gives a dBm value in -100..-50 |
| Collector.QualityToDbmMonotone | rpisender.py:85 | a higher quality never gives a lower dBm value |
| Collector.ParseScanLine | rpisender.py:77-89 | one listing line to an entry: split at every `:`, field 0 is the SSID, fields 1-6 are joined with `:` and their backslashes dropped, and `int()` of field 7 is converted to dBm. Too few fields, a field 7 that is not an integer, or an empty SSID give no entry. Its meaning is stated by `ParseScanLineSpec` and `NmcliLineRoundTrip` |
| Collector.ParseScanLineSpec | rpisender.py:77-89 | a line yields an entry exactly when splitting at every `:` gives at least 8 fields, field 7 passes `int()` and field 0 is not empty (a quality beyond the float range is kept; see `Collector.QualityToDbm` under Left out); the entry's SSID then has no `:` and its MAC has five `:` and no backslash |
| Collector.NmcliLineRoundTrip | rpisender.py:80-87 | for the line `nmcli -t` prints for an access point with a plain non-empty SSID and a six-octet BSSID, the entry is that SSID, the BSSID with its escapes removed, and the dBm value of the signal |
| Collector.SortByStrength | rpisender.py:92 | the sorted list is strongest first and is a permutation of its input |
| Collector.SortIsStable | rpisender.py:92 | for every strength, the entries of that strength keep their relative order (the sort is stable) |
| Collector.ScanResultProperties | rpisender.py:91-93 | the scan result keeps 12 entries, or every parsed entry when there are fewer, and is strongest first; it is a prefix of the full sorted list and a sub-multiset of the parsed entries; every parsed entry it leaves out is no stronger than any entry it keeps |
| Collector.Take | rpisender.py:93 | `networks[:n]`: the first n entries, or all of them when there are fewer |
| Collector.ScanResult | rpisender.py:91-93 | what `scan_wifi` returns: the parsed entries, sorted by strength and cut to 12, or `[]` when the command fails. Its meaning is stated by `ScanResultProperties`, `SortByStrength` and `SortIsStable` |
| Collector.ScanWifi | rpisender.py:75-93 | the append loop, the in-place sort and the cut give the scan result; a failed command gives `[]` |
| Collector.MatchAtIsRegexMatch | rpisender.py:58 | the greedy digit run finds a match at a position exactly when some non-empty digit count followed by ` dBm` does, as the regular expression reads it |
| Collector.FirstMatch | rpisender.py:58 | `re.search` returns the leftmost match position, with no match before it, or reports that there is no match |
| Collector.OwnRssi | rpisender.py:57-61 | the RSSI is minus the digits of the first match; it is -50 when the command fails or nothing matches |
| Collector.OwnRssiIsIntOfGroup | rpisender.py:58-59 | the RSSI equals `int()` of the first match's group `(-\d+)` |
| Collector.GetOwnInfo | rpisender.py:43-63 | the MAC and SSID come back stripped, or as their fallbacks `00:00:00:00:00:00` and `UNKNOWN_RPI`; the RSSI is never positive |
| Collector.Neighbours | rpisender.py:110-113 | the scanned entries that are not the collector itself, in scan order, no more than were scanned. Its meaning is stated by `NeighboursMembers` |
| Collector.NeighboursMembers | rpisender.py:110-113 | the reported neighbours are exactly the scanned entries whose MAC differs from the own MAC, ignoring case |
| Collector.NeighbourPartsLayout | rpisender.py:110-116 | the loop appends, in scan order, the three tokens of exactly the kept neighbours |
| Collector.FieldsOfAt | rpisender.py:114-116 | neighbour j sits at tokens 3j, 3j+1 and 3j+2, as rssi, ssid and mac |
| Collector.DataParts | rpisender.py:108-116 | the list `parts`: `DATA`, the own RSSI, the own MAC, then three tokens per neighbour. Its layout is stated by `NeighbourPartsLayout`, `FieldsOfAt` and `DataPartsShape` |
| Collector.DataLine | rpisender.py:118 | `", ".join(parts)`. `Wire.DataLineTokens` proves that the dashboard's tokeniser gives the parts back |
| Collector.DataPartsShape | rpisender.py:104-118 | the parts start with `DATA`, the own RSSI and the own MAC, and number 3 + 3k with k ≤ 12 |
| Collector.OwnSsidNotReported | rpisender.py:104-108 | the own SSID has no effect on the line |
| Collector.SerialiseReport | rpisender.py:108-118 | the loop with its `continue` builds the data line: the parts joined by `", "` |
| Collector.BuildDataLine | rpisender.py:99-118 | `build_data_line` is the data line of the own info and the scan result |
| Text.LowerAt | rpisender.py:112 | `lower()` maps each character on its own (ASCII letters) |
| Text.ParseNatToString | rpisender.py:83 | `int()` reads back a decimal numeral |
| Text.ParseInt | rpisender.py:83 | `int(s)`: skip the surrounding whitespace that `int()` skips, read an optional sign and digits with single underscores between them; `None` where Python raises `ValueError`. Its meaning is stated by `ParseIntToString`, `ParseIntLeadingSpace` and `ParseIntWhitespace` |
| Text.ParseIntToString | local_radar.py:88 | `int(str(n)) == n` for every integer |
| Text.IntStrip | rpisender.py:83 | the text `int()` reads neither starts nor ends with whitespace that `int()` skips |
| Text.IntStripIsTrimmedInfix | rpisender.py:83 | `int()` reads an infix of its argument, and everything outside that infix is whitespace it skips |
| Text.ParseIntLeadingSpace | rpisender.py:83 | putting whitespace that `int()` skips in front of a text does not change what `int()` gives |
| Text.ParseIntWhitespace | rpisender.py:83 | `int()` skips a space and a newline around a numeral, but refuses U+001C in front of it |
| Text.IntToStringInjective | local_radar.py:101 | distinct integers are written as distinct strings by `str()` |
| Text.Strip | rpisender.py:45 | `strip()`: the result has no `str.isspace()` whitespace at either end. `StripIsTrimmedInfix` proves that only surrounding whitespace is removed |
| Text.SplitOn | rpisender.py:77 | `split(c)`: one piece more than there are separators, and no piece holds the separator. `JoinSplitOn` proves that joining the pieces gives the text back |
| Text.JoinSplitOn | rpisender.py:77 | joining the pieces of `split(c)` with `c` gives back the line: splitting loses no character |
| Text.RemoveCharMembers | rpisender.py:81 | `replace('\\', '')` keeps exactly the characters other than the backslash |
| Text.LowerIdempotent | rpisender.py:112 | lowering an already lowered MAC changes nothing |
| Dashboard.IsMac | local_radar.py:51 | `MAC_REGEX.match(s)` succeeds. `IsMacLayout` states its meaning position by position |
| Dashboard.IsMacLayout | local_radar.py:51 | the MAC pattern matches exactly 17 characters, or 18 ending in a newline; separators at every third place are `:` or `-`, each chosen independently; every other place is a hex digit |
| Dashboard.MacAccepted | local_radar.py:51 | mixed separators, mixed case and one trailing newline are accepted |
| Dashboard.MacRefused | local_radar.py:51 | a trailing space, a short group and `.` separators are refused |
| Dashboard.Tokenise | local_radar.py:132 | there are as many tokens as commas plus one; every token is stripped and holds no comma |
| Dashboard.ReportLines | local_radar.py:130 | the lines of a chunk that contain `DATA`, in order, no more than there are lines. Its meaning is stated by `ReportLinesMembers` |
| Dashboard.ReportLinesMembers | local_radar.py:130 | exactly the lines containing `DATA` pass the filter |
| Dashboard.TaggedLines | local_radar.py:131 | each log entry is the transport tag followed by its line |
| Dashboard.TokenListsAt | local_radar.py:132 | each token list holds the tokens of its report line |
| Dashboard.UsbEntries | local_radar.py:204-206 | a serial read adds one entry, `USB: ` and the stripped line, exactly when the stripped line contains `DATA`; otherwise it adds nothing |
| Dashboard.ChunkReports | local_radar.py:129-132 | the loop over one chunk's lines logs `NET: <line>` for each marked line and tokenises it, in order |
| Dashboard.Radar.ReceiveLines | local_radar.py:129-132 | the log grows by exactly those entries; the scenes and names are unchanged |
| Dashboard.Radar.ReceiveNet | local_radar.py:126-132 | a received chunk is stripped, split at newlines and handled line by line |
| Dashboard.Radar.constructor | local_radar.py:44-47 | the log starts empty and every slot starts unnamed; both scene indices (lines 168-169) start at 0 |
| Dashboard.NextScene | local_radar.py:183 | a toggle lands in 0..3 |
| Dashboard.ToggledIsModular | local_radar.py:183 | k toggles from a valid scene give `(idx + k) % 4` |
| Dashboard.TogglesChangeScene | local_radar.py:183 | four toggles restore the scene; k toggles change it exactly when k is not a multiple of 4 |
| Dashboard.Radar.ToggleScene | local_radar.py:183 | the callback sets the scene to `(idx + 1) % 4` and changes nothing else |
| Dashboard.Radar.Tick | local_radar.py:193-206 | `scene_changed` is true exactly when the current scene differs from the one recorded at the previous tick; afterwards both are equal, so a following tick without a toggle reports no change; the log grows by the serial entries |
| Dashboard.DefaultLayout | local_radar.py:93 | 25 slots; slot i sits at column `i % 4` and row `i // 4`, `view // 5` apart from 100 |
| Dashboard.DefaultLayoutDistinct | local_radar.py:93 | for views at least 5 wide and high, no two default positions coincide and all lie at or beyond (100, 100) |
| Dashboard.Center | local_radar.py:84 | the padding point is half the view in each axis |
| Dashboard.PadPositions | local_radar.py:83-89 | the positions become exactly 25 entries: the stored ones in order, then the center point |
| Dashboard.Lookup | local_radar.py:88 | reading `custom_names[k]` in the model: the result is `None` (the key is absent) exactly when no entry holds the key |
| Dashboard.Assign | local_radar.py:88 | `custom_names[k] = v` sets k, leaves every other key, and adds an entry only for a new key |
| Dashboard.AssignKeepsDistinct | local_radar.py:88 | assignment keeps the keys distinct |
| Dashboard.InitialNames | local_radar.py:47 | slots 0..24 exist and are unnamed; there are no other keys |
| Dashboard.LoadNames | local_radar.py:86-88 | the name loop keeps the keys distinct |
| Dashboard.LoadNamesComplete | local_radar.py:86-88 | the loop runs to the end exactly when every key passes `int()` |
| Dashboard.LoadNamesUntouched | local_radar.py:86-88 | a slot keeps its name unless a key of the file reads as that slot and the slot is below `N_NODES` |
| Dashboard.LoadNamesSetsLast | local_radar.py:87-88 | if the loop reaches the last key that reads as slot k < `N_NODES`, the slot ends with that key's value, null included |
| Dashboard.SavedNames | local_radar.py:101 | only named slots are written |
| Dashboard.SavedNamesMembers | local_radar.py:101 | the saved map holds exactly the named slots, each under `str(k)` |
| Dashboard.SavedKeysDistinct | local_radar.py:101 | no two saved entries share a key, so the comprehension drops no named slot |
| Dashboard.SaveLoadRoundTrip | local_radar.py:99-102 | loading saved names runs to the end; every slot below `N_NODES` that had a name gets it back; every other slot keeps its value from before the load |
| Dashboard.Loaded | local_radar.py:77-93 | with padding that works, the load returns 25 positions and keeps names distinct; without a store it gives the default layout and the names unchanged |
| Dashboard.LoadedKeepsStoredPositions | local_radar.py:81-89 | when every key is an integer, position i is the stored one if there is one and the center point otherwise |
| Dashboard.PadPositionsAsWritten | local_radar.py:81-85 | the script's padding: `None`, meaning `np.vstack` raises, for an empty list, and the padded list otherwise. `LoadedAsWrittenAgrees` and `EmptyPositionsDropNames` state what that means for the load |
| Dashboard.LoadedAsWritten | local_radar.py:81-85 | the load as the script runs it always returns 25 positions |
| Dashboard.LoadedAsWrittenAgrees | local_radar.py:81-85 | the as-written load and the padded load agree on every store that lists at least one position |
| Dashboard.EmptyPositionsDropNames | local_radar.py:81-88 | for a store with no positions and a name for slot 3, the script falls back to the default layout and drops the name; the padded load keeps the name and centers every node |
| Dashboard.Radar.LoadPositionsAndNames | local_radar.py:74-93 | the method follows the script, and its positions and names are exactly `LoadedAsWritten`. An empty `fixed` list makes the padding raise before the names loop, which gives the default layout with the names untouched. A key that is not an integer gives the default layout, and the names assigned before that key stay. The scenes and the log are unchanged |
| Dashboard.Radar.Saved | local_radar.py:97-102 | the saved record holds the current positions, and no more names than `custom_names` has entries |
| Wire.TokeniseJoin | local_radar.py:132 | splitting a `", "`-join of tokens at commas and stripping each piece gives back the tokens |
| Wire.DataLineTokens | rpisender.py:108-118 | the dashboard's tokens of a report are exactly the collector's parts, provided no SSID or MAC holds a comma or surrounding whitespace |
| Wire.DataLineIsStripped | rpisender.py:118 | the report starts with `DATA` and is unchanged by `strip()`, provided every SSID and MAC is a token and every MAC is non-empty |
| Wire.ReportReachesDashboard | local_radar.py:129-132 | the line plus `"\n"`, received as one chunk, is logged once as `NET: <line>`, and its tokens are the collector's parts |
| Wire.CollectorMacIsMac | local_radar.py:51 | six two-hex-digit octets joined with `:` pass the MAC pattern |
| Wire.ScannedMacIsMac | rpisender.py:80-81 | the MAC the collector reads from an `nmcli` line with such a BSSID passes the dashboard's MAC pattern |

## Left out

- Sockets, serial ports, subprocesses and JSON files are not modelled; their text and records are parameters. This covers the sender loop with its sleeps and retries, the TCP listener thread, the serial reconnect, and the `print` diagnostics.
- The dashboard's listener thread and its animation loop share globals. That sharing is not modelled; each `Radar` method runs on its own.
- The slot allocator, the signal smoothing, the heatmap grids and the visibility filter are elided in the dashboard script. The drawing, the image loading and the drag handling are UI. None of them is modelled.
- Bytes and `decode(errors='ignore')` are not modelled: every input is already text.
- `Dashboard.Radar.ReceiveNet`: each chunk is handled on its own, as the script does. A line split across two `recv` chunks is not reassembled, and the model does not reassemble it either. `Wire.ReportReachesDashboard` assumes the line arrives in one chunk.
- `Collector.QualityToDbm`: the value is computed exactly. For qualities beyond 2^53 in magnitude, Python's float division rounds, and the model does not reproduce that rounding. Beyond the float range (about 3.6 x 10^308), `/ 2` raises and the script skips the line; `Collector.ParseScanLine` keeps it.
- `Collector.MatchAt`: `\d` is read as the ASCII digits. Python also matches other Unicode decimal digits there.
- `Text.ParseInt`: only ASCII digits are accepted, and numerals may be of any length. CPython also accepts other Unicode digits, and it refuses numerals longer than 4300 digits.
- `Text.Lower`: only the ASCII letters are lowered. Python's `lower()` maps all of Unicode.
- `Dashboard.Loaded`: a name value is modelled as a string or `null`. A store whose positions are not all pairs of numbers, and `numpy`'s numeric types (an integer array where the store held integers), are not modelled. Positions are `real` values.
- `Dashboard.Radar.Tick`: only the scene check and the serial line's log entry are modelled. The status text, the serial exception path and the per-tick grid work are not.
- `Collector.ScanWifi`: an exception inside the outer `try`, other than a failed command, is not modelled. Such an exception also returns `[]`, the same result as a failed command.

## Findings

| source | as written | input that shows it | evidently intended | confidence | as-written member | corrected member |
|---|---|---|---|---|---|---|
| local_radar.py:81-85 | `np.vstack([np.array(data.get('fixed', [])), extra])`. For an empty or missing `fixed` list, `np.array([])` has shape (0,), and `np.vstack` lifts it to (1, 0), which does not stack with rows of two. The call raises, the `except` returns the default layout, and the names in the store are never loaded. | a store `{"fixed": [], "names": {"3": "Kitchen"}}` with an 800 x 600 view | pad the empty list with 25 center points, as for any short list, and load the names | not executed | Dashboard.EmptyPositionsDropNames | Dashboard.PadPositions |
