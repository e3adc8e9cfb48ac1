# PV inverter test bench: a verified model of its core logic

This project models the deterministic core of a bench that tests
photovoltaic inverters. On the Modbus side that core covers:

- decoding a 16-bit register into an engineering value;
- the Modbus inverter driver: client profiles, a bounded retry loop, and
  register reads and scaled writes (Modbus Application Protocol V1.1b3:
  section 6.3 Read Holding Registers, section 6.6 Write Single Register,
  section 6.12 Write Multiple Registers);
- the instruments facade, which holds DC sources, an AC source and a
  dictionary of inverter drivers built from configuration records;
- serial-number acquisition: ten registers, two ASCII characters per word,
  inside two nested retry loops;
- the two serial-number parsers.

On the bench side it covers:

- the test sequencer's helpers: template writes, UI records, battery
  set-point words, DC channel selection, the safe-quench `finally` block
  and the playlist filter;
- the logging form: input filtering, the CSV header and the data rows;
- the manual read/write command;
- the report helpers that pick columns, channels, sheets, units and
  header/footer images from lists of names.

Everything that talks to a device, a file or the clock is a parameter, an
"oracle". Examples are a function from attempt number to what the
attempt did, a function from (pass, register, attempt) to the reply, or
`literal_eval` as a function from text to an optional value. Each
operation's contract is stated over those oracles.

Layout:

- `wrappers.dfy`: `Option`, `Result` and the Python exception kinds.
- `lists.dfy`: filters, subsequences, distinctness, first-match search and
  `Gather`, a loop over per-item outcomes that stops at the first error,
  with `GatherLoop`, the method that runs it.
- `text.dfy`: strip, lower/upper, containment, base names, and decimal and
  hexadecimal text with their round trips.
- `decoders.dfy`: `drivers/decoders.py`.
- `modbus_inv.dfy`: `drivers/modbus_inv.py`. `Inverter` is a class whose
  `trace` field records every bus request.
- `instruments.dfy`: `drivers/instruments.py`. `Instruments` is a class
  holding ordered dictionaries and a `calls` log of device calls.
- `sequencer.dfy`: `drivers/test.py`.
- `panel.dfy`: `PannelloTest.py`.
- `report.dfy`: `drivers/report.py`. It also serves the helpers that
  `drivers/report_html.py` repeats word for word: `_default_header_footer`,
  `_find_vdc_columns` and the x-column choice of `_write_graphs`.
- `report_html.dfy`: the other helpers of `drivers/report_html.py`.

## Model

| member | source | states |
|---|---|---|
| Decoders.Mask16 | drivers/decoders.py:26 | `x & 0xFFFF` lies in [0, 65536) and is congruent to x modulo 65536, negative x included |
| Decoders.FloatText | drivers/decoders.py:10 | the text handed to `float()` is the stripped input with every decimal comma turned into a point, so it holds no comma |
| Decoders.ToFloat | drivers/decoders.py:5-13 | an unparseable text gives the default; a parseable one gives the parsed number |
| Decoders.SignedWord | drivers/decoders.py:26-28 | the word stays congruent to the raw value modulo 65536, lies in [-65536, 65536), and is negative exactly when the masked raw value reaches the masked threshold |
| Decoders.DecodeU16Auto | drivers/decoders.py:15-30 | `None` in gives `None` out, and only then |
| Decoders.DecodeDependsOnWordOnly | drivers/decoders.py:26 | raw values equal modulo 65536 decode alike |
| Decoders.DecodeBelowThreshold | drivers/decoders.py:26-30 | below the threshold the result is the masked word times the scale |
| Decoders.DecodeAtOrAboveThreshold | drivers/decoders.py:27-28 | at or above the threshold the result is (word - 65536) times the scale |
| Decoders.DecodeDefaultRange | drivers/decoders.py:15-28 | with threshold 0xF000 and scale 1 a signed result lies in [-4096, -1] and an unsigned one in [0, 61439] |
| Decoders.DecodeLinearInScale | drivers/decoders.py:29-30 | multiplying the scale by k multiplies the result by k |
| Decoders.DecodeScaleFromText | drivers/decoders.py:29-30 | decoding with the scale text's parse is decoding with the number `_to_float` makes of that text, default 1.0 |
| Decoders.DecodeUnparseableScale | drivers/decoders.py:29 | an unparseable scale falls back to 1.0, so the result is the sign-adjusted word |
| Decoders.DecodeInvertsEncode | drivers/decoders.py:24-30 | every integer in [thresh - 65536, thresh), masked to a word, decodes back to itself at scale 1 |
| ModbusInv.ClientFor | drivers/modbus_inv.py:20-30 | TCP and AzzurroHUB build a TCP client and RTU a serial client, all with the given timeout; any other protocol raises ValueError |
| ModbusInv.ProfileDefaults | drivers/modbus_inv.py:20-28 | without a port TCP uses 8899 and AzzurroHUB 55400; a given non-zero port is kept; RTU is 9600 baud, 8 data bits, no parity, 1 stop bit |
| ModbusInv.ParseRegister | drivers/modbus_inv.py:78 | an int register is used as is; text is parsed in base 16 (`int(reg, 16)`, its value for every text that parses) and raises ValueError exactly when it is not hexadecimal |
| ModbusInv.ParseRegisterText | drivers/modbus_inv.py:78 | a four-digit hex text, with or without "0x", parses back to the register it names |
| ModbusInv.TruncDiv | drivers/modbus_inv.py:91 | `int(v / s)` has magnitude \|v\| div \|s\| and the sign of v/s: it truncates toward zero |
| ModbusInv.TruncDivBounds | drivers/modbus_inv.py:91 | the truncated quotient times s lies between 0 and v, less than \|s\| away from v |
| ModbusInv.TruncDivExact | drivers/modbus_inv.py:91 | dividing a multiple of the scale by the scale is exact |
| ModbusInv.ScaleValues | drivers/modbus_inv.py:91 | a list is scaled item by item in order and keeps its length; a zero scale on a non-empty list raises ZeroDivisionError |
| ModbusInv.ScaleValuesInverse | drivers/modbus_inv.py:91 | scale 1 leaves the values unchanged; values pre-multiplied by s come back divided exactly |
| ModbusInv.FirstReturned | drivers/modbus_inv.py:65-69 | finds the first attempt in a range that returned a usable value, or proves none did |
| ModbusInv.LastRaised | drivers/modbus_inv.py:64-74 | the exception remembered after n attempts is the one raised by the latest raising attempt, or none |
| ModbusInv.Retry | drivers/modbus_inv.py:63-75 | the retry loop makes at most `attempts` calls; its outcome and call count are those of the retry specification |
| ModbusInv.RetryStopsAtFirstGood | drivers/modbus_inv.py:65-69 | the first good attempt k is returned and exactly k + 1 calls are made |
| ModbusInv.RetryRaisesLatest | drivers/modbus_inv.py:70-74 | when every attempt fails, the latest raised exception is re-raised, even if later attempts only returned a falsy value |
| ModbusInv.RetryIOErrorWhenNothingRaised | drivers/modbus_inv.py:73-75 | all-falsy attempts raise IOError after using up every attempt |
| ModbusInv.Inverter.constructor | drivers/modbus_inv.py:13-37 | the driver keeps protocol, client and unit id, and its bus trace starts with one connect |
| ModbusInv.Inverter.Open | drivers/modbus_inv.py:13-37 | an unsupported protocol raises ValueError; otherwise a fresh driver with that protocol and unit id |
| ModbusInv.Inverter.Read | drivers/modbus_inv.py:77-83 | a bad register raises before the bus is touched; no connection returns None after one connect; otherwise one Read Holding Registers per retry call, returning the registers or None, or re-raising |
| ModbusInv.Inverter.Write | drivers/modbus_inv.py:85-95 | a bad register raises; no connection returns False; otherwise one Write Multiple Registers per retry call with the scaled words; True after a successful retry; a zero scale raises ZeroDivisionError without reaching the bus |
| ModbusInv.Inverter.Close | drivers/modbus_inv.py:97-102 | closing adds one disconnect to the trace and never raises |
| ModbusInv.Words | drivers/modbus_inv.py:90-94 | a scalar v sends the one word `int(v / scale)`, truncated toward zero; a list sends its scaled values, same length |
| ModbusInv.WriteResult | drivers/modbus_inv.py:92-95 | `write` returns True exactly when the retry succeeded, never False; otherwise it raises the exception the retry re-raised |
| Instruments.Dict.Put | drivers/instruments.py:37-39 | dict assignment: a new key goes last, an existing key keeps its place, the value is replaced |
| Instruments.FromPairs | drivers/instruments.py:20 | the DC dictionary is well formed; its keys are exactly the configured names; a name's value is that of its last pair; with distinct names the keys keep the configured order |
| Instruments.EffectiveProto | drivers/instruments.py:29 | `protocol or cfg["proto"] or "TCP"` is never empty |
| Instruments.SlaveId | drivers/instruments.py:32 | a missing Modbus id raises KeyError; an unconvertible one raises ValueError |
| Instruments.NodeFor | drivers/instruments.py:26-39 | a record yields a node exactly when its protocol is supported, its id converts and the driver constructs; the node's name defaults to INV{idx}, its role is "slave" iff `is_slave`, and its power supply defaults to "Nessuno" |
| Instruments.Build | drivers/instruments.py:23-42 | the inverter dictionary is well formed, every node is stored under its own name, and every role is master or slave |
| Instruments.BuildNames | drivers/instruments.py:25-42 | a name is a key exactly when some record built a node under it: failed records are skipped and no other is lost |
| Instruments.BuildLastWins | drivers/instruments.py:37-39 | the node stored under a name is the last record's that built one under it |
| Instruments.DefaultNames | drivers/instruments.py:26 | the default names are INV1 .. INVn in order |
| Instruments.BuildDefaultNames | drivers/instruments.py:25-39 | when every record builds under its default name the keys are exactly INV1 .. INVn in order |
| Instruments.NamesWithRole | drivers/instruments.py:93-95 | no role gives every name in insertion order; a role gives exactly the names with that role, in order, without repeats |
| Instruments.RolesPartition | drivers/instruments.py:93-95 | the master names and the slave names together count every inverter once |
| Instruments.Broadcast | drivers/instruments.py:97-101 | the result maps exactly the names, in order, to their drivers' replies; the first raising driver aborts it with that exception |
| Instruments.Called | drivers/instruments.py:97-101 | a broadcast calls drivers up to and including the first one that raises |
| Instruments.CallEach | drivers/instruments.py:98 | the comprehension loop computes the broadcast result and calls exactly the drivers the broadcast calls |
| Instruments.BroadcastAbort | drivers/instruments.py:98 | if driver i is the first to raise, the broadcast raises its exception after i + 1 calls |
| Instruments.Instruments.constructor | drivers/instruments.py:18-42 | the DC dictionary comes from the map, the AC source exists only for a truthy address, and the inverters are the built dictionary; the call log starts empty |
| Instruments.Instruments.BuildInverters | drivers/instruments.py:23-42 | the record loop builds exactly that dictionary: failing records skipped, a later record under the same name replacing an earlier one |
| Instruments.OpenFailure | drivers/instruments.py:20-21 | the first DC resource in map order whose opening raises gives that exception; when all DC resources open, the AC resource's exception if its address is truthy; none exactly when every resource opened |
| Instruments.Instruments.Open | drivers/instruments.py:18-42 | construction raises exactly when opening a DC or AC resource raises, with the first such exception and before any inverter is built; otherwise a fresh facade in the constructor's state |
| Instruments.Instruments.InvNames | drivers/instruments.py:93-95 | `inv_names(role)` lists distinct names, as the role filter over the dictionary |
| Instruments.Instruments.DcSetIv | drivers/instruments.py:47-52 | an unknown channel returns False and calls nothing; a known one makes one set-point call and returns its result |
| Instruments.Instruments.DcOn | drivers/instruments.py:53-58 | an unknown channel returns False and calls nothing; a known one is switched on |
| Instruments.Instruments.DcOff | drivers/instruments.py:59-64 | an unknown channel returns False and calls nothing; a known one is switched off |
| Instruments.Instruments.DcSafeQuenchAndOff | drivers/instruments.py:65-72 | an unknown channel returns False; a known one gets a set-point with the DC driver's default fill factor 0.9 (drivers/visadc.py:24), then a switch-off unless the set-point raised |
| Instruments.Instruments.DcConfigItech | drivers/instruments.py:115-119 | an unknown channel raises KeyError; a known one gets one solar-mode configuration call and returns what the source's configuration returns (identification, function mode, solar mode) or raises |
| Instruments.Instruments.AcSet | drivers/instruments.py:82 | without an AC source the result is None and nothing is called; with one, one configure call |
| Instruments.Instruments.AcOn | drivers/instruments.py:83 | without an AC source the result is None and nothing is called; with one, one switch-on |
| Instruments.Instruments.AcOff | drivers/instruments.py:84 | without an AC source the result is None and nothing is called; with one, one switch-off |
| Instruments.Instruments.InvRead | drivers/instruments.py:87-88 | an unknown inverter raises KeyError without a call; a known one is read once |
| Instruments.Instruments.InvWrite | drivers/instruments.py:90-91 | an unknown inverter raises KeyError without a call; a known one is written once |
| Instruments.Instruments.InvBroadcastWrite | drivers/instruments.py:97-98 | the result is the broadcast over `inv_names(role)`, and the calls made are one write per driver up to the first that raises |
| Instruments.Instruments.InvBroadcastRead | drivers/instruments.py:100-101 | the result is the broadcast over `inv_names(role)`, and the calls made are one read per driver up to the first that raises |
| Instruments.Instruments.InvDisconnectAll | drivers/instruments.py:74-79 | every inverter driver is closed once, in dictionary order; DC, AC and the dictionaries are unchanged |
| Instruments.Instruments.CloseAll | drivers/instruments.py:103-112 | every DC source is closed, then the AC source if any, then every inverter driver; errors are swallowed |
| Sequencer.AsPy | drivers/test.py:16-23 | anything but text, and text that does not start with a bracket after stripping, passes through unchanged |
| Sequencer.TemplateWrites | drivers/test.py:26-56 | every write carries the given scale and role; a scalar register gives exactly one write; a register list gives one write per register; only list values can raise, IndexError exactly for an empty flat list, ValueError otherwise |
| Sequencer.WritesRepeatScalar | drivers/test.py:36-39 | a register list with a scalar value writes that value to each register, in order |
| Sequencer.WritesFlatLists | drivers/test.py:42-50 | equal-length flat lists are written pairwise; unequal lengths write the first value to every register |
| Sequencer.WritesBlocks | drivers/test.py:53-56 | nested value blocks are written pairwise exactly when the lengths agree; otherwise ValueError before any write |
| Sequencer.IssuePrefix | drivers/test.py:36-56 | the writes issued are a prefix of the plan: all of it when no broadcast raises, otherwise up to and including the first that raises, whose exception is the outcome |
| Sequencer.IssueUpTo | drivers/test.py:36-56 | when the first k planned writes do not raise, a raising write k ends the run with the writes up to it; when none raises, the whole plan is issued |
| Sequencer.ApplyTemplateWrites | drivers/test.py:26-56 | a shape error raises before any write; otherwise the writes of the template-write specification for the parsed cells are issued in order until a broadcast raises, and that exception ends the call |
| Sequencer.WriteEach | drivers/test.py:37-38 | the loop writes the one value to each register in order and stops at the first broadcast that raises |
| Sequencer.WritePairwise | drivers/test.py:48-49 | the zip loop writes value i to register i and stops at the first broadcast that raises |
| Sequencer.CfgFor | drivers/test.py:66-74 | a UI row becomes record INV{idx} with `is_slave`, the power supply defaulting to "Nessuno", the IP else the address, and the converted Modbus id; an unconvertible id raises |
| Sequencer.FirstBadRow | drivers/test.py:70 | finds the first row whose Modbus id fails to convert; every row before it converts |
| Sequencer.BuildInvCfgsFromUi | drivers/test.py:59-75 | one record per row, same length, or the exception of the first bad row |
| Sequencer.UiRowsBecomeInverters | drivers/test.py:65-71 | records built from the UI and given to the facade under a supported protocol give the inverters INV1 .. INVn in order |
| Sequencer.ParseSn | drivers/test.py:78-107 | a result exactly for 14 or 20 ASCII alphanumerics after stripping; 14 gives family `s[:3]` and model `s[3:8]`, 20 gives `s[:6]` and `s[6:9]`; the prefix equals the family |
| Sequencer.ParseSnStable | drivers/test.py:85-88 | parsing a result's raw serial gives the same result |
| Sequencer.ClampPower | drivers/test.py:218 | the power is clamped into [0, 65535] and unchanged inside it |
| Sequencer.BatteryWords | drivers/test.py:222-225 | four words in [0, 65535], two copies of one pair |
| Sequencer.BatteryWordsAsSigned | drivers/test.py:222-225 | read as signed 32-bit pairs, charging requests p and discharging requests -(p + 1) |
| Sequencer.BatteryWrites | drivers/test.py:216-226 | "no" requests no write; otherwise 3 to 0x1110, then to 0x1189 the four battery words of the power cell's integer (each in [0, 65535]), both at scale 1 to every inverter; an unconvertible power raises before any write |
| Sequencer.BatteryModeWriteRaises | drivers/test.py:221-226 | when the mode write to 0x1110 raises, the set-point write to 0x1189 is never issued |
| Sequencer.BatteryRegisters | drivers/test.py:221-226 | the driver parses "0x1110" and "0x1189" as those registers |
| Sequencer.BatteryWordsUnscaled | drivers/test.py:226 | at scale 1 the driver sends the set-point words unchanged |
| Sequencer.ColumnUsed | drivers/test.py:150-153 | the early-exit loop finds whether some entry of the column is not "no" |
| Sequencer.DcChannels | drivers/test.py:162-167 | DCk is selected exactly when the path names it or its column is used, in DC1..DC3 order |
| Sequencer.SelectDcChannels | drivers/test.py:146-167 | the three column loops and the three tests give exactly that selection |
| Sequencer.ConfigureDcChannels | drivers/test.py:168-172 | a shared facade gets one solar-mode configuration per known selected channel; a failure is swallowed |
| Sequencer.QuenchCalls | drivers/test.py:401-406 | only set-point calls on known channels, at most one per selected channel |
| Sequencer.QuenchAllWhenNoFault | drivers/test.py:402-403 | with no failing device every known channel is quenched once, in order |
| Sequencer.QuenchStopsAtFault | drivers/test.py:401-406 | one `try` wraps the whole loop, so no channel after the first failing one is quenched |
| Sequencer.QuenchChannels | drivers/test.py:401-406 | the loop makes exactly the quench calls; the dictionaries are unchanged |
| Sequencer.SafeShutdown | drivers/test.py:399-422 | quench first, then close everything only when the facade is not shared |
| Sequencer.PlaylistNames | drivers/test.py:447 | names are stripped, non-blank and not comments, no more than there are lines |
| Sequencer.PlaylistIsMapFilter | drivers/test.py:447 | the comprehension is "filter the naming lines, then strip" |
| Sequencer.PlaylistKeepsNamedLines | drivers/test.py:447 | every naming line yields its name, and there is one name per naming line |
| Sequencer.ReadPlaylist | drivers/test.py:446-447 | reading a playlist gives exactly its names in file order |
| Sequencer.TemplatesToRun | drivers/test.py:448-452 | the templates run are the names whose file exists, in order |
| Panel.ConnectClient | PannelloTest.py:30-45 | the read_SN profiles: TCP on 8899 with unit 1, RTU at 9600 8N1 with the RTU unit id, AzzurroHUB on 55400 with timeout 5 and the HUB unit id; a missing unit id raises TypeError, any other protocol ValueError |
| Panel.HexHalves | PannelloTest.py:62-67 | the two halves of `f"{w:04x}"` parse in base 16 to the high and the low byte |
| Panel.WordTextIsBytes | PannelloTest.py:62-67 | what a word appends is `chr(w >> 8)` then `chr(w & 0xFF)`, and nothing for 0 |
| Panel.RegisterText | PannelloTest.py:57-74 | a register contributes two characters or nothing |
| Panel.RegisterReads | PannelloTest.py:58 | a register is read at least once and at most `max_retries` times |
| Panel.SilentRegisterAddsNothing | PannelloTest.py:56-77 | a register that never answers adds nothing after all its retries, and the pass goes on |
| Panel.ReadRegister | PannelloTest.py:57-77 | the per-register loop gives that text, within its bounded retries |
| Panel.PassText | PannelloTest.py:55-81 | a pass adds at most two characters per register, or ends with the exception |
| Panel.PassSerial | PannelloTest.py:79-85 | after a pass the serial is stripped and at most 20 characters long; an exception empties it |
| Panel.ReadPass | PannelloTest.py:55-85 | one pass reads the registers in order and gives that serial |
| Panel.ReadPassText | PannelloTest.py:55-78 | the register loop gives the pass text |
| Panel.SnFromPass | PannelloTest.py:47-91 | a serial of length 14 or 20 or "UNKNOWN" |
| Panel.SnPasses | PannelloTest.py:47-53 | at most `max_retries` passes (connections) are made |
| Panel.ReadSnResult | PannelloTest.py:22-91 | a client that cannot be built raises at the first pass, and only then; otherwise the result is a stripped serial of length 14 or 20 or "UNKNOWN", and "UNKNOWN" at once when the first connect fails |
| Panel.ReadSn | PannelloTest.py:22-91 | the two nested loops give that result with at most `max_retries` passes |
| Panel.PassReadsWords | PannelloTest.py:56-69 | a pass whose registers all answer at once reads their concatenated characters |
| Panel.ReadSnRecoversStoredSerial | PannelloTest.py:22-91 | a well-formed serial stored two characters per word, zero-padded, is exactly what `read_SN` returns |
| Panel.InverterHeader | PannelloTest.py:167-168 | one header cell per register for an inverter |
| Panel.HeaderCells | PannelloTest.py:165-168 | the header has inverters times registers cells after "timestamp" |
| Panel.HeaderCellAt | PannelloTest.py:166-168 | cell k * m + j is `Inverter{k+1}_{label j}`: inverter-major, 1-based |
| Panel.LogHeader | PannelloTest.py:164-168 | the header loop gives "timestamp" followed by those cells |
| Panel.RegisterCell | PannelloTest.py:203-209 | a cell is missing (the block raises) exactly when the register or scale does not convert or the read raises |
| Panel.BlockFrom | PannelloTest.py:201-212 | a block that does not raise has one cell per register |
| Panel.BlockCells | PannelloTest.py:185-215 | an inverter's block always has one cell per register: "ERR" for each when it raises |
| Panel.ReadBlock | PannelloTest.py:185-215 | the register loop of one inverter gives that block |
| Panel.RowCells | PannelloTest.py:184-215 | a row has inverters times registers cells after the timestamp |
| Panel.RowMatchesHeader | PannelloTest.py:165-215 | every data row is as wide as the header |
| Panel.BlockReadsValues | PannelloTest.py:202-209 | with convertible texts and answering reads, each cell is the register value times its scale |
| Panel.LogRow | PannelloTest.py:182-216 | the row loop gives the timestamp followed by each inverter's block, registers parsed in base 16 |
| Panel.LogRowAsWritten | PannelloTest.py:184 | as written, any inverter makes the row loop raise ValueError |
| Panel.PrefixedRegisterText | PannelloTest.py:203 | a "0x"-prefixed register text parses in base 16 and fails in base 10 |
| Panel.DecimalParseBlanksBlock | PannelloTest.py:203 | as written, one "0x" register text turns a whole block into "ERR" |
| Panel.DefaultTableLogsOnlyErr | PannelloTest.py:291-305 | with the form's default registers, as written, every block is all "ERR" |
| Panel.KeptRegisters | PannelloTest.py:412-418 | kept register rows are stripped and have all three texts non-empty |
| Panel.KeptRegistersIsMapFilter | PannelloTest.py:412-418 | the kept rows are exactly the stripped forms of the complete rows, in row order |
| Panel.KeptRegistersExactly | PannelloTest.py:412-418 | every complete row is kept, every kept entry is the stripped form of a complete row, and with no complete row nothing is kept |
| Panel.CollectRegisters | PannelloTest.py:412-418 | the loop keeps exactly those rows |
| Panel.InverterDataFor | PannelloTest.py:389-408 | a row with an empty IP or Modbus id is skipped; a record carries the stripped IP, the id as an integer, the row's slave flag and supply, and the serial read for a supported protocol, "UNKNOWN" for any other; an id that does not convert raises ValueError (for RTU and the hub before the read, for TCP after a read that succeeds), and a read that raises passes its exception on |
| Panel.KeptInverters | PannelloTest.py:387-408 | at most one record per row, each with a non-empty IP, or an exception |
| Panel.RowResults | PannelloTest.py:388-408 | row i gives what the per-row step gives for that row with serial read `readSn(i)` |
| Panel.KeptInvertersRows | PannelloTest.py:387-408 | the loop succeeds exactly when every row does; then its records are the rows' records in row order, skipped rows left out; otherwise its exception is the first failing row's |
| Panel.CollectInverters | PannelloTest.py:387-408 | the loop gives exactly those records |
| Lists.GatherLoop | PannelloTest.py:387-408 | the loop over per-row outcomes, computed in order and stopped by the first exception, returns what `Gather` describes |
| Panel.SendLogOutcome | PannelloTest.py:373-434 | an empty path stops first; bad times exactly when the path is set and a time does not convert; the inverter loop's exception is raised exactly when path and times are fine and the loop fails; no complete register stops before logging; logging starts with the given protocol, the loop's records, the kept registers and both times |
| Panel.OnSendLog | PannelloTest.py:373-434 | the handler's checks and loops give that outcome |
| Panel.ScaledItems | PannelloTest.py:580 | same length as the values; with a zero scale the first item decides the error: ZeroDivisionError for a number, TypeError for anything else |
| Panel.ScaledItemsEach | PannelloTest.py:580 | the list scales exactly when every item does, item i becoming item i's scaled value; otherwise the error is the first failing item's |
| Panel.ScaledItemsInverse | PannelloTest.py:580 | values pre-multiplied by the scale are sent as the original values |
| Panel.ValueList | PannelloTest.py:572-578 | a list literal stays as it is; any other literal becomes `[int(x)]`, with numbers truncated, bools as 0 or 1 and strings parsed as decimal; ValueError exactly when the text is no literal or `int()` rejects it |
| Panel.ValueListOfDecimalString | PannelloTest.py:573-576 | a quoted decimal string is written as the number it spells |
| Panel.ScaledItem | PannelloTest.py:580 | numbers and bools are divided by the scale; a string, a list or any other literal raises TypeError, and a number divided by a zero scale raises ZeroDivisionError |
| Panel.ManualWrite | PannelloTest.py:580-584 | one scaled value is a Write Single Register, any other count a Write Multiple Registers, of the scaled values; a scaling error is passed on |
| Panel.CommandLink | PannelloTest.py:540-558 | the command panel's client and unit id: TCP with unit 1, RTU and AzzurroHUB with the unit id typed for them; an unsupported protocol or an unconvertible id raises ValueError |
| Panel.SendCommand | PannelloTest.py:531-590 | a missing register, count or scale shows ValueError, a link failure its own error, no connection ConnectionError; a read asks for the typed register and count on the link's unit and shows the registers times the scale, an error reply shows IOError and a raising read its exception; a write shows the value-list or scaling error, else sends the manual write, and a write call that raises is the error shown |
| Report.FindVdcColumns | drivers/report.py:88-91 | exactly the "voltage dc ... [v" columns, in column order |
| Report.PoutColumn | drivers/report.py:93-103 | a column of the log, and none exactly when no column is active or DC output power in the unit |
| Report.PoutColumnPrefersActivePower | drivers/report.py:93-103 | the first active-power column wins; a DC power column is chosen only when no active-power column exists |
| Report.SearchPoutColumn | drivers/report.py:95-103 | the two search loops give that column |
| Report.FindPoutColumn | drivers/report.py:93-103 | `_find_pout_column` searches for kW columns |
| Report.HeaderFooter | drivers/report.py:71-86 | both are none exactly when there are no images; otherwise header falls back to the first image and footer to the last |
| Report.NamedImage | drivers/report.py:76-81 | the first image with the wanted name, or none exactly when no image has it |
| Report.HeaderFooterPicksFirstNamed | drivers/report.py:76-81 | the first image naming "head" is the header and the first naming "foot" is the footer |
| Report.DefaultHeaderFooter | drivers/report.py:71-86 | the selection loop gives exactly that pair |
| Report.ScanNamedImages | drivers/report.py:76-81 | the loop finds the first header-named and the first footer-named image |
| Report.HeadSuffices | drivers/report.py:78-80 | "head or header" is "head", and "foot or footer" is "foot" |
| Report.ColumnWithTag | drivers/report.py:149-151 | the first voltage column naming a tag, or none exactly when none does |
| Report.Preferred | drivers/report.py:145-151 | the preferred column is one of the voltage columns |
| Report.XColumn | drivers/report.py:145-152 | the x axis is a voltage column, and none exactly when there is none |
| Report.ChooseXColumn | drivers/report.py:145-152 | the loop gives that x axis |
| Report.LaterTagWins | drivers/report.py:147-151 | the last tag in the base name that has a column decides the x axis |
| Report.NoTagFallsBack | drivers/report.py:145-152 | with no matching tag nothing is preferred, so the first voltage column is used |
| Report.SheetChoice | drivers/report.py:129-139 | the first serial naming a sheet selects it and becomes the main serial; otherwise the first sheet with the first serial or "INV1"; no sheet raises IndexError |
| Report.ChooseSheet | drivers/report.py:129-139 | the loop gives that choice |
| Report.RowsOf | drivers/report.py:119-124 | one row per column whose first value reads, never for one that fails |
| Report.RowsOfInColumnOrder | drivers/report.py:119-124 | the rows are the columns whose first value reads, each with that value, in column order |
| Report.TemplateRows | drivers/report.py:117-124 | at most ten overview rows, all from the first ten columns |
| Report.ReadTemplateRows | drivers/report.py:117-124 | the overview loop gives those rows |
| ReportHtml.FirstColumn | drivers/report_html.py:9-13 | the first candidate, in candidate order, that is a column; none exactly when no candidate is |
| ReportHtml.PickCol | drivers/report_html.py:9-13 | the loop gives that column |
| ReportHtml.AllowedChans | drivers/report_html.py:86-93 | never empty, within DC1..DC3; the tags found in the upper-cased base name, or all three when none is found |
| ReportHtml.AllowedChansFromTemplate | drivers/report_html.py:86-93 | the loop gives that set |
| ReportHtml.Norm | drivers/report_html.py:217-218 | `(s or "").strip().lower()` is never longer than the input |
| ReportHtml.NormIdempotent | drivers/report_html.py:217-218 | normalising twice is normalising once |
| ReportHtml.UnitScale | drivers/report_html.py:130-139 | positive; 1 for empty or equal units; 1000 for kW to W, 0.001 for W to kW; 1 for any other pair |
| ReportHtml.UnitScaleReciprocal | drivers/report_html.py:130-139 | converting there and back multiplies by 1 |
| ReportHtml.GuessSpec | drivers/report_html.py:221-234 | the MPPT-curve spec exactly when the normalised stem holds "curva mppt", the battery-cycle spec when only "ciclo batteria" appears, else a generic spec whose title embeds the stem |
| ReportHtml.GuessSpecIgnoresFolder | drivers/report_html.py:221-223 | only the file name decides, not its folder |
| ReportHtml.ParseSnFamilyModel | drivers/report_html.py:238-250 | 14 characters give `(sn[:3], sn[5:8])`, 20 give `(sn[:6], sn[6:9])`, else `sn[:3]` and `sn[5:8]` or "" when shorter than 8 |
| ReportHtml.SnParsersDisagreeOn14 | drivers/report_html.py:241-242 | on 14 characters both parsers give the same family, but the model code `sn[5:8]` differs from `parse_sn`'s `s[3:8]` |
| ReportHtml.SnParsersAgreeOn20 | drivers/report_html.py:243-245 | on 20 characters the two parsers agree on family and model code |
| ReportHtml.DcChannels | drivers/report_html.py:467-477 | DCx is listed, in DC1..DC3 order, exactly when it is allowed and both its voltage and power columns exist |
| ReportHtml.DetectDcChannels | drivers/report_html.py:467-477 | the loop gives those channels |
| ReportHtml.BattPowerColumn | drivers/report_html.py:153-161 | a known name first, in listed order, then the first column naming "batt" and "power"; none exactly when neither exists |
| ReportHtml.FindBattPowerCol | drivers/report_html.py:153-161 | the two loops give that column |
| ReportHtml.PoutAsWrittenNeverFound | drivers/report_html.py:456-464 | as written, the upper-case "[W" is never in a lower-cased name, so no output-power column is ever found |
| ReportHtml.GraphAxes | drivers/report_html.py:528-543 | `_write_graphs` (which nothing in drivers/report_html.py calls; the report's graphs come from `_graphs_multi`) draws a graph exactly when there is a voltage column and an output-power column; its x axis is a voltage column |
| ReportHtml.GraphAxesAsWrittenNone | drivers/report_html.py:531-543 | as written, `_write_graphs` would never draw a graph, whatever the log holds; it has no caller in the file, so the report itself is not affected |
| ReportHtml.GraphAxesFindsMeasColumn | drivers/report_html.py:456-464 | with "[w", a log holding "Active Output Power [W]" and a voltage column gets its graph |
| ReportHtml.MeasColumnIsActivePower | drivers/report_html.py:110 | the measured column of the MPPT-curve spec is an active-power column in watts |

## Left out

- Python floating point. Floats are `real`, so rounding is not modelled. The `_fmt_value` formatting is left out, and so are the MPPT tolerance band, the battery-cycle medians and the time-axis and template-step parsing of `drivers/report_html.py`.
- Devices, files and the clock. Bus replies, `client.connect()`, `os.path.isfile`, the Excel sheets and `ast.literal_eval` are parameters. pandas/openpyxl, jinja2, plotly/matplotlib, PDF conversion and the session index are not modelled.
- Threads, the driver's `RLock`, `time.sleep` and the logging flags. The lock and the sleeps are no-ops. The logging flags and the loop's duration are outside the model: `LogRow` models one row.
- The Tk UI: widgets, dialogs and message boxes. Their field values are inputs, and a message box is an outcome constructor.
- The SCPI exchanges of drivers/visadc.py and drivers/visaac.py are not modelled. DC and AC calls are entries in the `calls` log; whether opening a resource raises, and what an ITECH configuration returns, are parameters. Debug.py is not part of this model either.
- `Instruments.dc_measure` is device I/O that returns a measurement dictionary.
- `_preflight_serial` only probes the serial port and logs; `Inverter.Open` leaves it out.
- The body of `run_test_from_template` outside the modelled pieces is left out: the DC/AC set-point loops with their float Voc/Isc, the custom and MPPT-curve branches and the inverter database lookup. The modelled pieces are channel selection, the DC configuration, the battery words and the `finally` block.
- Decoders.ToFloat: `str(x)` on a value that is not text is not modelled; the scale arrives as text.
- Text.Lower and Text.Upper change ASCII letters only; Python's Unicode case mapping is not modelled.
- ModbusInv.ParseRegister: Python's `int()` also accepts `_` digit separators and non-ASCII Unicode decimal digits (Arabic-Indic, full-width and the like); the model accepts only ASCII `0`-`9` (an optional sign is accepted, as in Python).
- Sequencer.ApplyTemplateWrites: a broadcast that raises counts as issued whole; which inverters it reached before raising is stated by Instruments.Instruments.InvBroadcastWrite, not here.
- Panel.ScaledItem: `v / scale` is modelled as exact division followed by truncation. For an int above 2**53 Python's float quotient rounds first, and for one beyond the float range it raises OverflowError. A complex literal counts as an other literal and raises TypeError; with a zero scale Python raises ZeroDivisionError for it instead.
- Panel.ValueList: a bytes literal counts as an other literal, so `int()` on it is modelled as raising although Python accepts it.
- Sequencer.AsPy: `literal_eval` is a parameter, so only the pass-through of text that does not start with a bracket is stated.
- Panel.ReadSn: the connect/close of each pass is not recorded; only the number of passes is stated.
- Panel.RowCells: the length fact is stated, and the width equality with the header is in Panel.RowMatchesHeader.

## Findings

| source | as written | input that shows it | evidently intended | confidence | as-written member | corrected member |
|---|---|---|---|---|---|---|
| PannelloTest.py:203 | `int(reg)` parses the register text in base 10 | the form's default register "0x0404" (PannelloTest.py:291): `int("0x0404")` raises, so the inverter's whole block is "ERR" | `int(reg, 16)`, as the driver does at drivers/modbus_inv.py:78 | not executed; masked by the next row, since the loop raises before reaching line 203 | Panel.DecimalParseBlanksBlock, Panel.DefaultTableLogsOnlyErr | Panel.LogRow (with Panel.BlockReadsValues) |
| PannelloTest.py:184 | `for modbus_id, address in inverters` unpacks two names from each record | any inverter: the records built at PannelloTest.py:402-408 are five-key dictionaries, and unpacking one into two names raises ValueError outside the per-inverter `try` | iterate the records and take their Modbus id and IP | not executed | Panel.LogRowAsWritten | Panel.LogRow |
| drivers/report_html.py:459 | `"[W" in cl` where `cl = c.lower()` | the MPPT-curve log column "Active Output Power [W]": lower-cased it holds "[w", never "[W", so `_write_graphs`, which nothing in this file calls, would never draw a graph (also at line 462) | `"[w" in cl` | not executed | ReportHtml.PoutAsWrittenNeverFound, ReportHtml.GraphAxesAsWrittenNone | ReportHtml.GraphAxesFindsMeasColumn |
