/** The operator panel's logic (PannelloTest.py): serial number
    acquisition over Modbus, the CSV logging table, the input filtering
    of the logging form and the manual register command.

    The bus is an oracle: `reply(pass, register, attempt)` says what the
    read of one register returned in one attempt of one pass.  Sleeps
    are no-ops; the Tk widgets are replaced by their texts. */
module Panel {
  import opened Wrappers
  import opened Exceptions
  import Lists
  import Text
  import ModbusInv
  import Sequencer

  /** The content of one holding register. */
  type Word = x: int | 0 <= x < 0x1_0000

  // ---------------------------------------------------------------------
  // read_SN: connection profiles
  // ---------------------------------------------------------------------

  /** The ten registers holding the serial number, two ASCII characters
      each. */
  const SnRegisters: seq<int> := [0x0445, 0x0446, 0x0447, 0x0448, 0x0449,
                                  0x044a, 0x044b, 0x044c, 0x0470, 0x0471]
  const DefaultMaxRetries: int := 10
  const Unknown: string := "UNKNOWN"

  predicate ExpectedLength(n: int) {
    n == 14 || n == 20
  }

  /** The keyword arguments of `read_SN` that select the device. */
  datatype SnTarget = SnTarget(
    proto: string,
    ipTcp: Option<string>,
    portaCom: Option<string>,
    ipHub: Option<string>,
    slaveRtu: Option<int>,
    slaveAzzurro: Option<int>)

  /** A client and the unit id the reads go to. */
  datatype SnLink = SnLink(client: ModbusInv.Client, slave: int)

  /** `connect_client()`: the same profiles as the driver's, except that
      the hub waits 5 s; `int(None)` raises `TypeError`. */
  function ConnectClient(t: SnTarget): (r: Result<SnLink, Exc>)
    ensures !ModbusInv.SupportedProto(t.proto) ==> r == Err(ValueError)
    ensures t.proto == "TCP" ==> r == Ok(SnLink(ModbusInv.ClientFor("TCP", t.ipTcp, None, None, 1.0).value, 1))
    ensures t.proto == "RTU" ==>
              r == (if t.slaveRtu.None? then Err(TypeError)
                    else Ok(SnLink(ModbusInv.ClientFor("RTU", None, None, t.portaCom, 1.0).value, t.slaveRtu.value)))
    ensures t.proto == "AzzurroHUB" ==>
              r == (if t.slaveAzzurro.None? then Err(TypeError)
                    else Ok(SnLink(ModbusInv.ClientFor("AzzurroHUB", t.ipHub, None, None, 5.0).value, t.slaveAzzurro.value)))
  {
    if t.proto == "RTU" then
      if t.slaveRtu.None? then Err(TypeError)
      else Ok(SnLink(ModbusInv.SerialClient(t.portaCom, 9600, 8, 'N', 1, 1.0), t.slaveRtu.value))
    else if t.proto == "TCP" then Ok(SnLink(ModbusInv.TcpClient(t.ipTcp, 8899, 1.0), 1))
    else if t.proto == "AzzurroHUB" then
      if t.slaveAzzurro.None? then Err(TypeError)
      else Ok(SnLink(ModbusInv.TcpClient(t.ipHub, 55400, 5.0), t.slaveAzzurro.value))
    else Err(ValueError)
  }

  // ---------------------------------------------------------------------
  // read_SN: one word
  // ---------------------------------------------------------------------

  /** The reference reading of a word: nothing for 0, otherwise its high
      byte then its low byte as characters. */
  function WordChars(w: Word): (t: string)
    ensures |t| == (if w == 0 then 0 else 2)
  {
    if w == 0 then [] else [(w / 256) as char, (w % 256) as char]
  }

  /** The two halves of `f"{w:04x}"` are the hexadecimal digits of the
      high and the low byte, and `int(_, 16)` reads them back. */
  lemma HexHalves(w: Word)
    ensures Text.AllHex(Text.HexFixed(w, 4)[..2]) && Text.AllHex(Text.HexFixed(w, 4)[2..])
    ensures Text.HexDigitsValue(Text.HexFixed(w, 4)[..2]) == w / 256
    ensures Text.HexDigitsValue(Text.HexFixed(w, 4)[2..]) == w % 256
    ensures Text.ParseIntBase16(Text.HexFixed(w, 4)[..2]) == Some(w / 256)
    ensures Text.ParseIntBase16(Text.HexFixed(w, 4)[2..]) == Some(w % 256)
  {
    var h := Text.HexFixed(w, 4);
    assert Text.Pow16(2) == 256;
    Text.HexFixedSplit(w, 2, 2);
    Text.DivDiv(w, 16, 16);
    assert h[..2] == Text.HexFixed(w / 256, 2);
    assert h[2..] == Text.HexFixed(w, 2);
    Text.HexFixedValue(w / 256, 2);
    Text.HexFixedValue(w, 2);
    Text.ParseHexFixed(w / 256, 2);
    Text.ParseHexFixedLow(w, 2);
  }

  /** What the source appends for a word: `f"{val:04x}"`, nothing when
      that is '0000', else `chr(int(h[0:2], 16))` and `chr(int(h[2:4], 16))`
      (`HexHalves` shows that `int(_, 16)` gives the digits' value). */
  function WordText(w: Word): string {
    var h := Text.HexFixed(w, 4);
    if h == "0000" then []
    else
      HexHalves(w);
      [Text.HexDigitsValue(h[..2]) as char, Text.HexDigitsValue(h[2..]) as char]
  }

  /** The hexadecimal route yields the two bytes, and nothing for 0. */
  lemma WordTextIsBytes(w: Word)
    ensures WordText(w) == WordChars(w)
  {
    HexHalves(w);
    if w == 0 {
      HexOfZero();
    } else {
      HexOfNonZero(w);
    }
  }

  lemma HexOfZero()
    ensures Text.HexFixed(0, 4) == "0000"
  {
    assert Text.HexFixed(0, 1) == "0";
    assert Text.HexFixed(0, 2) == "00";
    assert Text.HexFixed(0, 3) == "000";
  }

  lemma HexOfNonZero(w: Word)
    requires w != 0
    ensures Text.HexFixed(w, 4) != "0000"
  {
    var h := Text.HexFixed(w, 4);
    assert Text.Pow16(4) == 0x1_0000;
    Text.HexFixedValue(w, 4);
    if h == "0000" {
      ZerosValue(h);
      assert false;
    }
  }

  lemma {:induction false} ZerosValue(s: string)
    requires forall i :: 0 <= i < |s| ==> s[i] == '0'
    ensures Text.AllHex(s) && Text.HexDigitsValue(s) == 0
  {
    if s != [] {
      ZerosValue(s[..|s| - 1]);
    }
  }

  // ---------------------------------------------------------------------
  // read_SN: one register, one pass, all passes
  // ---------------------------------------------------------------------

  /** One `read_holding_registers` call: a register value, an error
      response, or an exception. */
  datatype Reply = Regs(word: Word) | ErrorReply | Raise(error: Exc)

  /** The text one register contributes in a pass, from attempt `a` on
      (`n` attempts in all): the first non-error response decides; an
      exception ends the pass; no answer contributes nothing. */
  function RegisterText(reply: (nat, int, nat) -> Reply, pass: nat, reg: int, a: nat, n: int): (r: Result<string, Exc>)
    ensures r.Ok? ==> |r.value| == 0 || |r.value| == 2
    decreases n - a
  {
    if a >= n then Ok([])
    else match reply(pass, reg, a)
      case ErrorReply => RegisterText(reply, pass, reg, a + 1, n)
      case Regs(w) => WordTextIsBytes(w); Ok(WordText(w))
      case Raise(e) => Err(e)
  }

  /** The number of reads of one register in a pass. */
  function RegisterReads(reply: (nat, int, nat) -> Reply, pass: nat, reg: int, a: nat, n: int): (k: nat)
    ensures a < n ==> 1 <= k <= n - a
    ensures a >= n ==> k == 0
    decreases n - a
  {
    if a >= n then 0
    else if reply(pass, reg, a).ErrorReply? then 1 + RegisterReads(reply, pass, reg, a + 1, n)
    else 1
  }

  /** A register that never answers within the attempts contributes
      nothing after all of them. */
  lemma {:induction false} SilentRegisterAddsNothing(reply: (nat, int, nat) -> Reply, pass: nat, reg: int, a: nat, n: int)
    requires forall i :: a <= i < n ==> reply(pass, reg, i).ErrorReply?
    ensures RegisterText(reply, pass, reg, a, n) == Ok([])
    ensures RegisterReads(reply, pass, reg, a, n) == (if a < n then n - a else 0)
    decreases n - a
  {
    if a < n {
      SilentRegisterAddsNothing(reply, pass, reg, a + 1, n);
    }
  }

  /** The retry loop of one register. */
  method ReadRegister(reply: (nat, int, nat) -> Reply, pass: nat, reg: int, maxRetries: int)
    returns (r: Result<string, Exc>, tries: nat)
    ensures r == RegisterText(reply, pass, reg, 0, maxRetries)
    ensures tries == RegisterReads(reply, pass, reg, 0, maxRetries)
    ensures tries <= ModbusInv.Tries(maxRetries)
  {
    r := Ok([]);
    tries := 0;
    var a: nat := 0;
    while a < maxRetries
      invariant tries == a <= ModbusInv.Tries(maxRetries)
      invariant RegisterText(reply, pass, reg, 0, maxRetries) == RegisterText(reply, pass, reg, a, maxRetries)
      invariant RegisterReads(reply, pass, reg, 0, maxRetries) == a + RegisterReads(reply, pass, reg, a, maxRetries)
      decreases maxRetries - a
    {
      var rr := reply(pass, reg, a);
      tries := tries + 1;
      if !rr.ErrorReply? {
        if rr.Regs? {
          r := Ok(WordText(rr.word));
        } else {
          r := Err(rr.error);
        }
        return;
      }
      a := a + 1;
    }
  }

  function Prepend(acc: string, r: Result<string, Exc>): Result<string, Exc> {
    match r
    case Ok(u) => Ok(acc + u)
    case Err(e) => Err(e)
  }

  /** The text of one pass over `regs[j..]`, or the exception that ends
      it. */
  function PassText(reply: (nat, int, nat) -> Reply, pass: nat, regs: seq<int>, j: nat, n: int): (r: Result<string, Exc>)
    requires j <= |regs|
    ensures r.Ok? ==> |r.value| <= 2 * (|regs| - j)
    decreases |regs| - j
  {
    if j == |regs| then Ok([])
    else match RegisterText(reply, pass, regs[j], 0, n)
      case Err(e) => Err(e)
      case Ok(t) => Prepend(t, PassText(reply, pass, regs, j + 1, n))
  }

  /** `sn_str.strip()` after a pass: an exception empties the text. */
  function PassSerial(reply: (nat, int, nat) -> Reply, pass: nat, n: int): (s: string)
    ensures |s| <= 2 * |SnRegisters|
    ensures Text.Strip(s) == s
  {
    match PassText(reply, pass, SnRegisters, 0, n)
    case Ok(t) => Text.StripIdempotent(t); Text.Strip(t)
    case Err(_) => []
  }

  /** One pass: every register in order, text accumulated; an
      exception ends the pass with an empty text. */
  method ReadPass(reply: (nat, int, nat) -> Reply, pass: nat, maxRetries: int) returns (s: string)
    ensures s == PassSerial(reply, pass, maxRetries)
  {
    var r := ReadPassText(reply, pass, maxRetries);
    if r.Err? {
      return [];
    }
    s := Text.Strip(r.value);
  }

  /** The register loop of one pass. */
  method ReadPassText(reply: (nat, int, nat) -> Reply, pass: nat, maxRetries: int) returns (r: Result<string, Exc>)
    ensures r == PassText(reply, pass, SnRegisters, 0, maxRetries)
  {
    var acc: string := [];
    PrependEmpty(PassText(reply, pass, SnRegisters, 0, maxRetries));
    var j := 0;
    while j < |SnRegisters|
      invariant 0 <= j <= |SnRegisters|
      invariant PassText(reply, pass, SnRegisters, 0, maxRetries)
                == Prepend(acc, PassText(reply, pass, SnRegisters, j, maxRetries))
    {
      var t, _ := ReadRegister(reply, pass, SnRegisters[j], maxRetries);
      if t.Err? {
        return Err(t.error);
      }
      PrependTwice(acc, t.value, PassText(reply, pass, SnRegisters, j + 1, maxRetries));
      acc := acc + t.value;
      j := j + 1;
    }
    assert acc + [] == acc;
    r := Ok(acc);
  }

  lemma PrependEmpty(r: Result<string, Exc>)
    ensures Prepend([], r) == r
  {
    if r.Ok? {
      assert [] + r.value == r.value;
    }
  }

  lemma PrependTwice(a: string, b: string, r: Result<string, Exc>)
    ensures Prepend(a, Prepend(b, r)) == Prepend(a + b, r)
  {
    if r.Ok? {
      assert a + (b + r.value) == (a + b) + r.value;
    }
  }

  /** The outcome of passes `p..n-1` once the client exists: a failed
      connect gives "UNKNOWN" at once, a pass whose text has an expected
      length ends the search, running out of passes gives "UNKNOWN". */
  function SnFromPass(connected: nat -> bool, reply: (nat, int, nat) -> Reply, p: nat, n: int): (r: string)
    ensures r == Unknown || (ExpectedLength(|r|) && Text.Strip(r) == r)
    decreases n - p
  {
    if p >= n || !connected(p) then Unknown
    else
      var s := PassSerial(reply, p, n);
      if ExpectedLength(|s|) then s else SnFromPass(connected, reply, p + 1, n)
  }

  /** The number of passes (connections) made from pass `p` on. */
  function SnPasses(connected: nat -> bool, reply: (nat, int, nat) -> Reply, p: nat, n: int): (k: nat)
    ensures k <= ModbusInv.Tries(n - p)
    decreases n - p
  {
    if p >= n then 0
    else if !connected(p) || ExpectedLength(|PassSerial(reply, p, n)|) then 1
    else 1 + SnPasses(connected, reply, p + 1, n)
  }

  /** `read_SN(...)`: a serial of 14 or 20 characters, "UNKNOWN", or the
      exception `connect_client` raises. */
  function ReadSnResult(t: SnTarget, maxRetries: int, connected: nat -> bool, reply: (nat, int, nat) -> Reply)
    : (r: Result<string, Exc>)
    ensures r.Err? <==> maxRetries > 0 && ConnectClient(t).Err?
    ensures r.Err? ==> r.error == ConnectClient(t).error
    ensures r.Ok? ==> r.value == Unknown || (ExpectedLength(|r.value|) && Text.Strip(r.value) == r.value)
    ensures maxRetries > 0 && ConnectClient(t).Ok? && !connected(0) ==> r == Ok(Unknown)
  {
    if maxRetries <= 0 then Ok(Unknown)
    else match ConnectClient(t)
      case Err(e) => Err(e)
      case Ok(_) => Ok(SnFromPass(connected, reply, 0, maxRetries))
  }

  /** The two nested retry loops of `read_SN`. */
  method ReadSn(t: SnTarget, maxRetries: int, connected: nat -> bool, reply: (nat, int, nat) -> Reply)
    returns (r: Result<string, Exc>, passes: nat)
    ensures r == ReadSnResult(t, maxRetries, connected, reply)
    ensures passes == (if r.Err? then 0 else SnPasses(connected, reply, 0, maxRetries))
    ensures passes <= ModbusInv.Tries(maxRetries)
  {
    var p: nat := 0;
    passes := 0;
    while p < maxRetries
      invariant passes == p <= ModbusInv.Tries(maxRetries)
      invariant p > 0 ==> ConnectClient(t).Ok?
      invariant SnFromPass(connected, reply, 0, maxRetries) == SnFromPass(connected, reply, p, maxRetries)
      invariant SnPasses(connected, reply, 0, maxRetries) == p + SnPasses(connected, reply, p, maxRetries)
      decreases maxRetries - p
    {
      var link := ConnectClient(t);
      if link.Err? {
        return Err(link.error), 0;
      }
      passes := passes + 1;
      if !connected(p) {
        return Ok(Unknown), passes;
      }
      var s := ReadPass(reply, p, maxRetries);
      if ExpectedLength(|s|) {
        return Ok(s), passes;
      }
      p := p + 1;
    }
    r := Ok(Unknown);
  }

  // ---------------------------------------------------------------------
  // read_SN: a stored serial is read back
  // ---------------------------------------------------------------------

  /** The words a device stores a serial in: two characters per word. */
  function EncodeSerial(s: string): (ws: seq<Word>)
    requires |s| % 2 == 0 && forall i :: 0 <= i < |s| ==> s[i] as int < 256
    ensures |ws| == |s| / 2
  {
    if s == [] then []
    else
      var w: Word := s[0] as int * 256 + s[1] as int;
      [w] + EncodeSerial(s[2..])
  }

  /** The reference reading of a sequence of words. */
  function Concat(ws: seq<Word>): string {
    if ws == [] then [] else WordChars(ws[0]) + Concat(ws[1..])
  }

  lemma {:induction false} ConcatEncode(s: string)
    requires |s| % 2 == 0 && forall i :: 0 <= i < |s| ==> 0 < s[i] as int < 256
    ensures Concat(EncodeSerial(s)) == s
  {
    if s != [] {
      var w := s[0] as int * 256 + s[1] as int;
      Text.DivModUnique(w, 256, s[0] as int, s[1] as int);
      assert WordChars(w) == s[..2];
      ConcatEncode(s[2..]);
      assert s == s[..2] + s[2..];
    }
  }

  lemma {:induction false} ConcatZeros(ws: seq<Word>, k: nat)
    ensures Concat(ws + seq(k, _ => 0 as Word)) == Concat(ws)
  {
    if ws == [] {
      var zs := seq(k, _ => 0 as Word);
      assert ws + zs == zs;
      if k > 0 {
        assert zs[1..] == seq(k - 1, _ => 0 as Word);
        ConcatZeros([], k - 1);
        assert [] + seq(k - 1, _ => 0 as Word) == seq(k - 1, _ => 0 as Word);
      }
    } else {
      assert (ws + seq(k, _ => 0 as Word))[1..] == ws[1..] + seq(k, _ => 0 as Word);
      ConcatZeros(ws[1..], k);
    }
  }

  /** A pass whose first attempt at each register answers reads the
      words' characters in register order. */
  lemma {:induction false} PassReadsWords(reply: (nat, int, nat) -> Reply, pass: nat, regs: seq<int>, j: nat, n: int,
                                          ws: seq<Word>)
    requires j <= |regs| == |ws| && n >= 1
    requires forall i :: j <= i < |regs| ==> reply(pass, regs[i], 0) == Regs(ws[i])
    ensures PassText(reply, pass, regs, j, n) == Ok(Concat(ws[j..]))
    decreases |regs| - j
  {
    if j < |regs| {
      WordTextIsBytes(ws[j]);
      PassReadsWords(reply, pass, regs, j + 1, n, ws);
      assert ws[j..][1..] == ws[j + 1..];
    }
  }

  /** The zero-padded words of a serial, one per serial register. */
  function StoredWords(s: string): (ws: seq<Word>)
    requires Sequencer.WellFormedSn(s)
    ensures |ws| == |SnRegisters|
  {
    forall i | 0 <= i < |s| ensures s[i] as int < 256 {
      assert Sequencer.IsAsciiAlnum(s[i]);
    }
    EncodeSerial(s) + seq(|SnRegisters| - |s| / 2, _ => 0 as Word)
  }

  /** A well-formed serial stored in the ten registers is what `read_SN`
      returns when the first pass connects and every first read answers. */
  lemma ReadSnRecoversStoredSerial(s: string, t: SnTarget, maxRetries: int, connected: nat -> bool,
                                   reply: (nat, int, nat) -> Reply)
    requires Sequencer.WellFormedSn(s)
    requires ConnectClient(t).Ok? && maxRetries >= 1 && connected(0)
    requires forall i :: 0 <= i < |SnRegisters| ==> reply(0, SnRegisters[i], 0) == Regs(StoredWords(s)[i])
    ensures ReadSnResult(t, maxRetries, connected, reply) == Ok(s)
  {
    var ws := StoredWords(s);
    PassReadsWords(reply, 0, SnRegisters, 0, maxRetries, ws);
    assert ws[0..] == ws;
    StoredWordsSpell(s);
    assert PassSerial(reply, 0, maxRetries) == s;
  }

  /** The stored words read back as the serial, which has no surrounding
      blanks to strip. */
  lemma StoredWordsSpell(s: string)
    requires Sequencer.WellFormedSn(s)
    ensures Concat(StoredWords(s)) == s && Text.Strip(s) == s
  {
    forall i | 0 <= i < |s| ensures 0 < s[i] as int < 256 && !Text.IsSpace(s[i]) {
      assert Sequencer.IsAsciiAlnum(s[i]);
    }
    ConcatEncode(s);
    ConcatZeros(EncodeSerial(s), |SnRegisters| - |s| / 2);
    assert Text.NoSpace(s);
  }

  // ---------------------------------------------------------------------
  // start_logging_routine: the CSV table
  // ---------------------------------------------------------------------

  /** A register row of the logging form: label, register text, scale
      text. */
  datatype RegEntry = RegEntry(name: string, reg: string, scale: string)

  /** The registers the logging form starts with. */
  const DefaultRegisters: seq<RegEntry> := [
    RegEntry("System State", "0x0404", "1"),
    RegEntry("Active Output Power [kW]", "0x0485", "100"),
    RegEntry("Reactive Output Power [kVAr]", "0x0486", "100"),
    RegEntry("Active PCC Power [kW]", "0x0488", "100"),
    RegEntry("Reactive PCC Power [kVAr]", "0x0489", "100"),
    RegEntry("Voltage DC1 [V]", "0x0584", "10"),
    RegEntry("Current DC1 [A]", "0x0585", "100"),
    RegEntry("Power DC1 [kW]", "0x0586", "100"),
    RegEntry("Voltage DC2 [V]", "0x0587", "10"),
    RegEntry("Current DC2 [A]", "0x0588", "100"),
    RegEntry("Power DC2 [kW]", "0x0589", "100"),
    RegEntry("Charge/Discharge Power [kW]", "0x0667", "10"),
    RegEntry("Battery SOC [%]", "0x0668", "1")
  ]

  /** An inverter as `on_send_log` hands it to the logger. */
  datatype InverterData = InverterData(sn: string, ip: string, modbus: int, slave: bool, alimentatore: string)

  /** The header cells of inverter `k` (1-based). */
  function InverterHeader(k: nat, regs: seq<RegEntry>): (h: seq<string>)
    ensures |h| == |regs|
  {
    seq(|regs|, j requires 0 <= j < |regs| => "Inverter" + Text.NatToDec(k) + "_" + regs[j].name)
  }

  /** The header cells after "timestamp" for `n` inverters. */
  function HeaderCells(n: nat, regs: seq<RegEntry>): (h: seq<string>)
    ensures |h| == n * |regs|
  {
    if n == 0 then []
    else
      var h := HeaderCells(n - 1, regs) + InverterHeader(n, regs);
      assert (n - 1) * |regs| + |regs| == n * |regs|;
      h
  }

  /** Cell `k * m + j` of the header names register j of inverter k + 1:
      the header is inverter-major. */
  lemma {:induction false} HeaderCellAt(n: nat, regs: seq<RegEntry>, k: nat, j: nat)
    requires k < n && j < |regs|
    ensures k * |regs| + j < n * |regs|
    ensures HeaderCells(n, regs)[k * |regs| + j] == "Inverter" + Text.NatToDec(k + 1) + "_" + regs[j].name
  {
    var m := |regs|;
    var pre := HeaderCells(n - 1, regs);
    assert |pre| == (n - 1) * m;
    if k == n - 1 {
      assert k * m + j == |pre| + j;
    } else {
      HeaderCellAt(n - 1, regs, k, j);
    }
  }

  /** The header: "timestamp", then each inverter's block. */
  method LogHeader(inverters: seq<InverterData>, regs: seq<RegEntry>) returns (header: seq<string>)
    ensures header == ["timestamp"] + HeaderCells(|inverters|, regs)
  {
    header := ["timestamp"];
    var k := 0;
    while k < |inverters|
      invariant 0 <= k <= |inverters|
      invariant header == ["timestamp"] + HeaderCells(k, regs)
    {
      var j := 0;
      while j < |regs|
        invariant 0 <= j <= |regs|
        invariant header == ["timestamp"] + HeaderCells(k, regs) + InverterHeader(k + 1, regs)[..j]
      {
        header := header + ["Inverter" + Text.NatToDec(k + 1) + "_" + regs[j].name];
        j := j + 1;
      }
      k := k + 1;
    }
  }

  /** A cell of the table. */
  datatype LogCell = Str(s: string) | Num(n: int)

  const ErrCell: LogCell := Str("ERR")

  /** A logging read: a register value, a falsy or register-less result,
      or an exception. */
  datatype LogReply = Answer(word: Word) | Empty | Fails(error: Exc)

  /** `int(reg)` as the logger writes it (decimal) or `int(reg, 16)`. */
  function RegAddress(reg: string, hex: bool): Option<int> {
    if hex then Text.ParseIntBase16(reg) else Text.ParseIntBase10(reg)
  }

  /** A register row after `int()` on its texts: address and scale,
      `None` where `int` raises. */
  datatype ParsedEntry = ParsedEntry(reg: Option<int>, scale: Option<int>)

  function Parsed(e: RegEntry, hex: bool): ParsedEntry {
    ParsedEntry(RegAddress(e.reg, hex), Text.ParseIntBase10(e.scale))
  }

  function ParsedAll(regs: seq<RegEntry>, hex: bool): (ps: seq<ParsedEntry>)
    ensures |ps| == |regs|
  {
    seq(|regs|, i requires 0 <= i < |regs| => Parsed(regs[i], hex))
  }

  /** One register's cell, or `None` when the block raises. */
  function RegisterCell(p: ParsedEntry, reply: LogReply): (c: Option<LogCell>)
    ensures c.None? <==> p.reg.None? || p.scale.None? || reply.Fails?
  {
    if p.reg.None? || p.scale.None? then None
    else match reply
      case Answer(w) => Some(Num(w * p.scale.value))
      case Empty => Some(ErrCell)
      case Fails(_) => None
  }

  /** The cells of `ps[j..]` for inverter `k`, or `None` on the first
      exception. */
  function BlockFrom(ps: seq<ParsedEntry>, k: nat, read: (nat, nat) -> LogReply, j: nat)
    : (c: Option<seq<LogCell>>)
    requires j <= |ps|
    ensures c.Some? ==> |c.value| == |ps| - j
    decreases |ps| - j
  {
    if j == |ps| then Some([])
    else match RegisterCell(ps[j], read(k, j))
      case None => None
      case Some(x) =>
        match BlockFrom(ps, k, read, j + 1)
        case None => None
        case Some(c) => Some([x] + c)
  }

  /** The block of one inverter: its cells, or one "ERR" per register when
      anything in it raises. */
  function BlockCells(regs: seq<RegEntry>, hex: bool, k: nat, read: (nat, nat) -> LogReply): (c: seq<LogCell>)
    ensures |c| == |regs|
  {
    match BlockFrom(ParsedAll(regs, hex), k, read, 0)
    case None => Lists.Repeat(ErrCell, |regs|)
    case Some(c) => c
  }

  /** The cells after the timestamp for `n` inverters, registers parsed as
      hexadecimal. */
  function RowCells(n: nat, regs: seq<RegEntry>, read: (nat, nat) -> LogReply): (c: seq<LogCell>)
    ensures |c| == n * |regs|
  {
    if n == 0 then []
    else
      var c := RowCells(n - 1, regs, read) + BlockCells(regs, true, n - 1, read);
      assert (n - 1) * |regs| + |regs| == n * |regs|;
      c
  }

  lemma RowCellsStep(k: nat, regs: seq<RegEntry>, read: (nat, nat) -> LogReply)
    ensures RowCells(k + 1, regs, read) == RowCells(k, regs, read) + BlockCells(regs, true, k, read)
  {
  }

  /** Every row is as wide as the header. */
  lemma RowMatchesHeader(n: nat, regs: seq<RegEntry>, read: (nat, nat) -> LogReply, stamp: string)
    ensures |[Str(stamp)] + RowCells(n, regs, read)| == |["timestamp"] + HeaderCells(n, regs)|
  {
  }

  /** With answering reads and parseable texts each register's cell is its
      value times its scale. */
  lemma {:induction false} BlockReadsValues(ps: seq<ParsedEntry>, k: nat, read: (nat, nat) -> LogReply, j: nat)
    requires j <= |ps|
    requires forall i :: j <= i < |ps| ==> (ps[i].reg.Some? && ps[i].scale.Some? && read(k, i).Answer?)
    ensures BlockFrom(ps, k, read, j).Some?
    ensures forall i :: j <= i < |ps| ==>
              BlockFrom(ps, k, read, j).value[i - j] == Num(read(k, i).word * ps[i].scale.value)
    decreases |ps| - j
  {
    if j < |ps| {
      BlockReadsValues(ps, k, read, j + 1);
    }
  }

  function PrependCells(values: seq<LogCell>, o: Option<seq<LogCell>>): Option<seq<LogCell>> {
    match o
    case None => None
    case Some(c) => Some(values + c)
  }

  /** Moving one answered register from the pending block to the
      collected cells. */
  lemma PrependStep(values: seq<LogCell>, ps: seq<ParsedEntry>, k: nat, read: (nat, nat) -> LogReply, j: nat, x: LogCell)
    requires j < |ps| && RegisterCell(ps[j], read(k, j)) == Some(x)
    ensures PrependCells(values, BlockFrom(ps, k, read, j)) == PrependCells(values + [x], BlockFrom(ps, k, read, j + 1))
  {
    match BlockFrom(ps, k, read, j + 1) {
      case Some(c) => assert values + ([x] + c) == (values + [x]) + c;
      case None =>
    }
  }

  /** One inverter's block. */
  method ReadBlock(regs: seq<RegEntry>, k: nat, read: (nat, nat) -> LogReply) returns (cells: seq<LogCell>)
    ensures cells == BlockCells(regs, true, k, read)
  {
    var ps := ParsedAll(regs, true);
    var values: seq<LogCell> := [];
    match BlockFrom(ps, k, read, 0) {
      case Some(c) => assert values + c == c;
      case None =>
    }
    var j := 0;
    while j < |regs|
      invariant 0 <= j <= |regs|
      invariant BlockFrom(ps, k, read, 0) == PrependCells(values, BlockFrom(ps, k, read, j))
    {
      var x := RegisterCell(ps[j], read(k, j));
      if x.None? {
        assert BlockFrom(ps, k, read, j).None?;
        return Lists.Repeat(ErrCell, |regs|);
      }
      PrependStep(values, ps, k, read, j, x.value);
      values := values + [x.value];
      j := j + 1;
    }
    cells := values;
  }

  /** One data row: the timestamp, then each inverter's block. */
  method LogRow(stamp: string, inverters: seq<InverterData>, regs: seq<RegEntry>, read: (nat, nat) -> LogReply)
    returns (row: seq<LogCell>)
    ensures row == [Str(stamp)] + RowCells(|inverters|, regs, read)
  {
    var blocks: seq<LogCell> := [];
    var k := 0;
    while k < |inverters|
      invariant 0 <= k <= |inverters|
      invariant blocks == RowCells(k, regs, read)
    {
      var cells := ReadBlock(regs, k, read);
      RowCellsStep(k, regs, read);
      blocks := blocks + cells;
      k := k + 1;
    }
    row := [Str(stamp)] + blocks;
  }

  /** The row loop as written: `for modbus_id, address in inverters`
      unpacks each five-key inverter record into two names, which raises
      `ValueError` before the first block. */
  method LogRowAsWritten(stamp: string, inverters: seq<InverterData>, regs: seq<RegEntry>,
                         read: (nat, nat) -> LogReply)
    returns (r: Result<seq<LogCell>, Exc>)
    ensures inverters == [] ==> r == Ok([Str(stamp)])
    ensures inverters != [] ==> r == Err(ValueError)
  {
    var row := [Str(stamp)];
    if inverters != [] {
      return Err(ValueError);
    }
    r := Ok(row);
  }

  /** A register text "0x" + four hex digits is the register itself for
      `int(_, 16)` and is rejected by `int(_)`. */
  lemma PrefixedRegisterText(a: nat)
    requires a < 0x1_0000
    ensures RegAddress("0x" + Text.HexFixed(a, 4), true) == Some(a)
    ensures RegAddress("0x" + Text.HexFixed(a, 4), false).None?
  {
    assert Text.Pow16(4) == 0x1_0000;
    Text.ParsePrefixedHexFixed(a, 4);
    DecimalRejectsHexPrefix(Text.HexFixed(a, 4));
  }

  /** `int(_)` in base 10 rejects any text that starts with "0x". */
  lemma DecimalRejectsHexPrefix(t: string)
    requires Text.NoSpace(t)
    ensures Text.ParseIntBase10("0x" + t).None?
  {
    var s := "0x" + t;
    assert Text.NoSpace(s);
    assert Text.Strip(s) == s;
    assert Text.SplitSign(s) == (false, s);
    assert !Text.IsDigit(s[1]);
  }

  /** As written, a block with any register given as "0x...." is all
      "ERR", whatever the inverter answers. */
  lemma DecimalParseBlanksBlock(regs: seq<RegEntry>, k: nat, read: (nat, nat) -> LogReply, i: nat, a: nat)
    requires i < |regs| && a < 0x1_0000 && regs[i].reg == "0x" + Text.HexFixed(a, 4)
    ensures BlockCells(regs, false, k, read) == Lists.Repeat(ErrCell, |regs|)
  {
    PrefixedRegisterText(a);
    BlockFailsFrom(ParsedAll(regs, false), k, read, 0, i);
  }

  /** An entry whose conversion raises blanks the whole block. */
  lemma {:induction false} BlockFailsFrom(ps: seq<ParsedEntry>, k: nat, read: (nat, nat) -> LogReply, j: nat, i: nat)
    requires j <= i < |ps| && ps[i].reg.None?
    ensures BlockFrom(ps, k, read, j).None?
    decreases i - j
  {
    if j < i {
      BlockFailsFrom(ps, k, read, j + 1, i);
    }
  }

  /** The first default register is "0x0404": as written every block of
      the default table is all "ERR". */
  lemma DefaultTableLogsOnlyErr(k: nat, read: (nat, nat) -> LogReply)
    ensures BlockCells(DefaultRegisters, false, k, read) == Lists.Repeat(ErrCell, |DefaultRegisters|)
    ensures RegAddress(DefaultRegisters[0].reg, true) == Some(0x0404)
  {
    assert Text.HexFixed(0x4, 1) == "4";
    assert Text.HexFixed(0x40, 2) == "40";
    assert Text.HexFixed(0x404, 3) == "404";
    var s := "0x" + Text.HexFixed(0x0404, 4);
    assert s == "0x0404";
    DecimalParseBlanksBlock(DefaultRegisters, k, read, 0, 0x0404);
    PrefixedRegisterText(0x0404);
  }

  // ---------------------------------------------------------------------
  // on_send_log: the form's inputs
  // ---------------------------------------------------------------------

  /** One inverter row of the form: Modbus id text, IP or port text,
      slave flag, supply. */
  datatype InverterRow = InverterRow(modbus: string, ip: string, slave: bool, alimentatore: string)

  /** What pressing the button leads to. */
  datatype SendLog =
    | MissingPath
    | BadTimes
    | Raised(error: Exc)
    | NoRegisterSelected
    | StartLogging(protocol: string, inverters: seq<InverterData>, registers: seq<RegEntry>,
                   path: string, sampling: real, duration: real, template: Option<string>)

  predicate Complete(e: RegEntry) {
    Text.Strip(e.name) != [] && Text.Strip(e.reg) != [] && Text.Strip(e.scale) != []
  }

  function Stripped(e: RegEntry): RegEntry {
    RegEntry(Text.Strip(e.name), Text.Strip(e.reg), Text.Strip(e.scale))
  }

  /** The register rows kept: stripped, only those with all three texts. */
  function KeptRegisters(rows: seq<RegEntry>): (kept: seq<RegEntry>)
    ensures |kept| <= |rows|
    ensures forall e :: e in kept ==> e.name != [] && e.reg != [] && e.scale != []
  {
    if rows == [] then []
    else
      var e := rows[|rows| - 1];
      KeptRegisters(rows[..|rows| - 1]) + KeptTail(e)
  }

  /** The register loop is the comprehension "the stripped rows that
      have all three texts", in row order. */
  lemma {:induction false} KeptRegistersIsMapFilter(rows: seq<RegEntry>)
    ensures KeptRegisters(rows) == Lists.MapFilter(rows, Complete, Stripped)
  {
    if rows != [] {
      var pre, last := rows[..|rows| - 1], rows[|rows| - 1];
      assert pre + [last] == rows;
      KeptRegistersIsMapFilter(pre);
      Lists.MapFilterSnoc(pre, last, Complete, Stripped);
      assert KeptTail(last) == (if Complete(last) then [Stripped(last)] else []);
      assert KeptRegisters(rows) == KeptRegisters(pre) + KeptTail(last);
    }
  }

  /** A complete row is kept, an incomplete one is not, and every kept
      entry is the stripped form of a complete row. */
  lemma KeptRegistersExactly(rows: seq<RegEntry>)
    ensures forall i :: 0 <= i < |rows| && Complete(rows[i]) ==> Stripped(rows[i]) in KeptRegisters(rows)
    ensures forall e :: e in KeptRegisters(rows) ==> exists i :: 0 <= i < |rows| && Complete(rows[i]) && e == Stripped(rows[i])
    ensures (forall i :: 0 <= i < |rows| ==> !Complete(rows[i])) ==> KeptRegisters(rows) == []
  {
    KeptRegistersIsMapFilter(rows);
    Lists.MapFilterFrom(rows, Complete, Stripped);
    forall i | 0 <= i < |rows| && Complete(rows[i]) ensures Stripped(rows[i]) in KeptRegisters(rows) {
      Lists.MapFilterKeeps(rows, Complete, Stripped, i);
    }
    if KeptRegisters(rows) != [] {
      assert KeptRegisters(rows)[0] in KeptRegisters(rows);
    }
  }

  /** One more row adds what that row gives. */
  lemma KeptRegistersStep(rows: seq<RegEntry>, j: nat)
    requires j < |rows|
    ensures Complete(rows[j]) ==> KeptRegisters(rows[..j + 1]) == KeptRegisters(rows[..j]) + [Stripped(rows[j])]
    ensures !Complete(rows[j]) ==> KeptRegisters(rows[..j + 1]) == KeptRegisters(rows[..j])
  {
    assert rows[..j + 1][..j] == rows[..j];
    assert rows[..j + 1][j] == rows[j];
    assert KeptRegisters(rows[..j]) + [] == KeptRegisters(rows[..j]);
  }

  /** What the last row adds to the kept rows. */
  function KeptTail(e: RegEntry): (t: seq<RegEntry>)
    ensures t == [] <==> !Complete(e)
  {
    if Complete(e) then [Stripped(e)] else []
  }

  /** The record for one inverter row (`None`: skipped for a blank IP or
      id).  For RTU and the hub `int(id)` runs before the serial read, for
      TCP after it. */
  function InverterDataFor(mode: string, row: InverterRow, sn: Result<string, Exc>): (r: Result<Option<InverterData>, Exc>)
    ensures r == Ok(None) <==> Text.Strip(row.ip) == [] || Text.Strip(row.modbus) == []
    ensures r.Ok? && r.value.Some? ==>
              r.value.value.ip == Text.Strip(row.ip) && r.value.value.ip != []
              && Some(r.value.value.modbus) == Text.ParseIntBase10(Text.Strip(row.modbus))
    ensures r.Ok? && r.value.Some? && !ModbusInv.SupportedProto(mode) ==> r.value.value.sn == Unknown
    ensures r.Ok? && r.value.Some? && ModbusInv.SupportedProto(mode) ==> sn == Ok(r.value.value.sn)
    ensures r.Ok? && r.value.Some? ==> r.value.value.slave == row.slave && r.value.value.alimentatore == row.alimentatore
    ensures var id := Text.ParseIntBase10(Text.Strip(row.modbus));
            r.Err? ==> (id.None? && r.error == ValueError) || (ModbusInv.SupportedProto(mode) && sn == Err(r.error))
    ensures var id := Text.ParseIntBase10(Text.Strip(row.modbus));
            Text.Strip(row.ip) != [] && Text.Strip(row.modbus) != [] && id.None?
            && (mode == "RTU" || mode == "AzzurroHUB" || !ModbusInv.SupportedProto(mode) || sn.Ok?)
            ==> r == Err(ValueError)
    ensures var id := Text.ParseIntBase10(Text.Strip(row.modbus));
            Text.Strip(row.ip) != [] && Text.Strip(row.modbus) != [] && ModbusInv.SupportedProto(mode) && sn.Err?
            && (id.Some? || mode == "TCP")
            ==> r == Err(sn.error)
    ensures var id := Text.ParseIntBase10(Text.Strip(row.modbus));
            Text.Strip(row.ip) != [] && Text.Strip(row.modbus) != [] && id.Some?
            && (sn.Ok? || !ModbusInv.SupportedProto(mode))
            ==> r.Ok? && r.value.Some?
  {
    var ip := Text.Strip(row.ip);
    var m := Text.Strip(row.modbus);
    if ip == [] || m == [] then Ok(None)
    else
      var id := Text.ParseIntBase10(m);
      if (mode == "RTU" || mode == "AzzurroHUB") && id.None? then Err(ValueError)
      else
        var s := if ModbusInv.SupportedProto(mode) then sn else Ok(Unknown);
        match s
        case Err(e) => Err(e)
        case Ok(v) =>
          if id.None? then Err(ValueError)
          else
            Ok(Some(InverterData(v, ip, id.value, row.slave, row.alimentatore)))
  }

  /** What each inverter row gives, in row order; row i's serial read is
      `readSn(i)`. */
  function RowResults(mode: string, rows: seq<InverterRow>, readSn: nat -> Result<string, Exc>)
    : (rs: seq<Result<Option<InverterData>, Exc>>)
    ensures |rs| == |rows|
    ensures forall i :: 0 <= i < |rows| ==> rs[i] == InverterDataFor(mode, rows[i], readSn(i))
  {
    seq(|rows|, i requires 0 <= i < |rows| => InverterDataFor(mode, rows[i], readSn(i)))
  }

  /** The inverter loop: one record per filled row, the first exception
      ends it. */
  function KeptInverters(mode: string, rows: seq<InverterRow>, readSn: nat -> Result<string, Exc>)
    : (r: Result<seq<InverterData>, Exc>)
    ensures r.Ok? ==> |r.value| <= |rows|
    ensures r.Ok? ==> forall d :: d in r.value ==> d.ip != []
  {
    var rs := RowResults(mode, rows, readSn);
    Lists.GatherFrom(rs);
    Lists.Gather(rs)
  }

  /** The inverter loop succeeds exactly when every row does; then the
      records are those of the rows that give one, in row order, each
      with its own row's serial; otherwise the exception is the first
      failing row's. */
  lemma KeptInvertersRows(mode: string, rows: seq<InverterRow>, readSn: nat -> Result<string, Exc>)
    ensures var r := KeptInverters(mode, rows, readSn);
            (r.Ok? <==> forall i :: 0 <= i < |rows| ==> InverterDataFor(mode, rows[i], readSn(i)).Ok?)
            && (r.Ok? ==> r.value == Lists.Somes(Lists.OkValues(RowResults(mode, rows, readSn))))
            && (r.Err? ==> exists i :: 0 <= i < |rows| && InverterDataFor(mode, rows[i], readSn(i)) == Err(r.error)
                                       && forall j :: 0 <= j < i ==> InverterDataFor(mode, rows[j], readSn(j)).Ok?)
  {
    var rs := RowResults(mode, rows, readSn);
    Lists.GatherOk(rs);
    Lists.GatherFirstErr(rs);
  }

  /** `on_send_log()`: `sampling` and `duration` are the outcomes of
      `float()` on their texts. */
  function SendLogOutcome(path: string, sampling: Option<real>, duration: Option<real>, protocol: string,
                          rows: seq<InverterRow>, readSn: nat -> Result<string, Exc>,
                          regRows: seq<RegEntry>, template: string): (r: SendLog)
    ensures r == MissingPath <==> Text.Strip(path) == []
    ensures r.StartLogging? ==> r.registers == KeptRegisters(regRows) && r.registers != []
                                && r.path == Text.Strip(path) && r.path != []
                                && |r.inverters| <= |rows|
                                && (r.template.None? <==> template == "custom")
    ensures Text.Strip(path) != [] && sampling.Some? && duration.Some?
            && KeptInverters(Text.Strip(protocol), rows, readSn).Ok? ==>
              (r == NoRegisterSelected <==> KeptRegisters(regRows) == [])
    ensures r == BadTimes <==> Text.Strip(path) != [] && (sampling.None? || duration.None?)
    ensures r.Raised? <==> Text.Strip(path) != [] && sampling.Some? && duration.Some?
                           && KeptInverters(Text.Strip(protocol), rows, readSn).Err?
    ensures r.Raised? ==> r.error == KeptInverters(Text.Strip(protocol), rows, readSn).error
    ensures r.StartLogging? ==> KeptInverters(Text.Strip(protocol), rows, readSn).Ok?
                                && r.inverters == KeptInverters(Text.Strip(protocol), rows, readSn).value
                                && r.protocol == protocol
                                && Some(r.sampling) == sampling && Some(r.duration) == duration
  {
    if Text.Strip(path) == [] then MissingPath
    else if sampling.None? || duration.None? then BadTimes
    else match KeptInverters(Text.Strip(protocol), rows, readSn)
      case Err(e) => Raised(e)
      case Ok(invs) =>
        var regs := KeptRegisters(regRows);
        if regs == [] then NoRegisterSelected
        else StartLogging(protocol, invs, regs, Text.Strip(path), sampling.value, duration.value,
                          if template != "custom" then Some(template) else None)
  }

  /** `on_send_log()`: the checks, then the two accumulation loops. */
  method OnSendLog(path: string, sampling: Option<real>, duration: Option<real>, protocol: string,
                   rows: seq<InverterRow>, readSn: nat -> Result<string, Exc>,
                   regRows: seq<RegEntry>, template: string) returns (r: SendLog)
    ensures r == SendLogOutcome(path, sampling, duration, protocol, rows, readSn, regRows, template)
  {
    var filePath := Text.Strip(path);
    if filePath == [] {
      return MissingPath;
    }
    if sampling.None? || duration.None? {
      return BadTimes;
    }
    var invs := CollectInverters(Text.Strip(protocol), rows, readSn);
    if invs.Err? {
      return Raised(invs.error);
    }
    var regs := CollectRegisters(regRows);
    if regs == [] {
      return NoRegisterSelected;
    }
    r := StartLogging(protocol, invs.value, regs, filePath, sampling.value, duration.value,
                      if template != "custom" then Some(template) else None);
  }

  /** The inverter loop of `on_send_log`: the rows are taken in order,
      each filled row gives one record and the first exception ends the
      loop (the loop itself is `Lists.GatherLoop`, run over the rows). */
  method CollectInverters(mode: string, rows: seq<InverterRow>, readSn: nat -> Result<string, Exc>)
    returns (r: Result<seq<InverterData>, Exc>)
    ensures r == KeptInverters(mode, rows, readSn)
  {
    r := Lists.GatherLoop(|rows|, i requires 0 <= i < |rows| => InverterDataFor(mode, rows[i], readSn(i)),
                          RowResults(mode, rows, readSn));
  }

  /** The register loop of `on_send_log`: stripped rows with all three
      texts, in order. */
  method CollectRegisters(regRows: seq<RegEntry>) returns (regs: seq<RegEntry>)
    ensures regs == KeptRegisters(regRows)
  {
    regs := [];
    var j := 0;
    while j < |regRows|
      invariant 0 <= j <= |regRows|
      invariant regs == KeptRegisters(regRows[..j])
    {
      var e := regRows[j];
      KeptRegistersStep(regRows, j);
      if Complete(e) {
        regs := regs + [Stripped(e)];
      }
      j := j + 1;
    }
    assert j == |regRows| && regRows[..j] == regRows;
  }

  // ---------------------------------------------------------------------
  // send_command: the manual register command
  // ---------------------------------------------------------------------

  /** A value `ast.literal_eval` produced: `LOther` stands for every
      other literal (tuples, dicts, sets, bytes, complex numbers, None). */
  datatype Literal = LInt(i: int) | LReal(r: real) | LBool(b: bool) | LStr(s: string)
                   | LList(items: seq<Literal>) | LOther

  /** `int(x)` on a float: truncation toward zero. */
  function TruncReal(x: real): int {
    if x >= 0.0 then x.Floor else -((-x).Floor)
  }

  /** `int(b)` on a bool. */
  function BoolInt(b: bool): int {
    if b then 1 else 0
  }

  /** A literal `v / scale` accepts: an int, a float or a bool. */
  predicate Numeric(v: Literal) {
    v.LInt? || v.LReal? || v.LBool?
  }

  /** `int(v / scale)` for one list item: numbers and bools divide, a
      string, list or any other literal raises `TypeError`, and a number
      divided by a zero scale raises `ZeroDivisionError`. */
  function ScaledItem(v: Literal, scale: int): (r: Result<int, Exc>)
    ensures r.Err? <==> !Numeric(v) || scale == 0
    ensures r.Err? ==> r.error == (if Numeric(v) then ZeroDivisionError else TypeError)
  {
    match v
    case LInt(i) => if scale == 0 then Err(ZeroDivisionError) else Ok(ModbusInv.TruncDiv(i, scale))
    case LReal(x) => if scale == 0 then Err(ZeroDivisionError) else Ok(TruncReal(x / scale as real))
    case LBool(b) => if scale == 0 then Err(ZeroDivisionError) else Ok(ModbusInv.TruncDiv(BoolInt(b), scale))
    case _ => Err(TypeError)
  }

  /** `[int(v / scale) for v in val_list]`: the items are divided in
      order and the first one that raises decides the error. */
  function ScaledItems(vs: seq<Literal>, scale: int): (r: Result<seq<int>, Exc>)
    ensures r.Ok? ==> |r.value| == |vs|
    ensures scale == 0 && vs != [] ==> r == Err(if Numeric(vs[0]) then ZeroDivisionError else TypeError)
  {
    if vs == [] then Ok([])
    else match ScaledItem(vs[0], scale)
      case Err(e) => Err(e)
      case Ok(x) =>
        match ScaledItems(vs[1..], scale)
        case Err(e) => Err(e)
        case Ok(xs) => Ok([x] + xs)
  }

  /** Item by item: the list scales exactly when every item does, each
      item to its own scaled value; otherwise the error is the one the
      first failing item raises. */
  lemma ScaledItemsEach(vs: seq<Literal>, scale: int)
    ensures ScaledItems(vs, scale).Ok? <==> forall i :: 0 <= i < |vs| ==> ScaledItem(vs[i], scale).Ok?
    ensures ScaledItems(vs, scale).Ok? ==>
              forall i :: 0 <= i < |vs| ==> ScaledItems(vs, scale).value[i] == ScaledItem(vs[i], scale).value
    ensures ScaledItems(vs, scale).Err? ==>
              exists i :: 0 <= i < |vs| && ScaledItem(vs[i], scale) == Err(ScaledItems(vs, scale).error)
                          && forall j :: 0 <= j < i ==> ScaledItem(vs[j], scale).Ok?
  {
    ScaledItemsOk(vs, scale);
    ScaledItemsFirstErr(vs, scale);
  }

  lemma {:induction false} ScaledItemsOk(vs: seq<Literal>, scale: int)
    ensures ScaledItems(vs, scale).Ok? <==> forall i :: 0 <= i < |vs| ==> ScaledItem(vs[i], scale).Ok?
    ensures ScaledItems(vs, scale).Ok? ==>
              forall i :: 0 <= i < |vs| ==> ScaledItems(vs, scale).value[i] == ScaledItem(vs[i], scale).value
  {
    if vs != [] {
      ScaledItemsOk(vs[1..], scale);
      assert forall i :: 0 < i < |vs| ==> vs[i] == vs[1..][i - 1];
    }
  }

  lemma {:induction false} ScaledItemsFirstErr(vs: seq<Literal>, scale: int)
    ensures ScaledItems(vs, scale).Err? ==>
              exists i :: 0 <= i < |vs| && ScaledItem(vs[i], scale) == Err(ScaledItems(vs, scale).error)
                          && forall j :: 0 <= j < i ==> ScaledItem(vs[j], scale).Ok?
  {
    if vs != [] && ScaledItems(vs, scale).Err? {
      if ScaledItem(vs[0], scale).Err? {
        assert ScaledItem(vs[0], scale) == Err(ScaledItems(vs, scale).error);
      } else {
        assert ScaledItems(vs[1..], scale).Err? && ScaledItems(vs, scale).error == ScaledItems(vs[1..], scale).error;
        ScaledItemsFirstErr(vs[1..], scale);
        var i :| 0 <= i < |vs[1..]| && ScaledItem(vs[1..][i], scale) == Err(ScaledItems(vs[1..], scale).error)
                 && forall j :: 0 <= j < i ==> ScaledItem(vs[1..][j], scale).Ok?;
        assert vs[i + 1] == vs[1..][i];
        assert forall j :: 0 < j < i + 1 ==> vs[j] == vs[1..][j - 1];
        assert ScaledItem(vs[i + 1], scale) == Err(ScaledItems(vs, scale).error);
      }
    }
  }

  /** `int(x)` on a literal that is not a list, `None` where it raises:
      numbers truncate, bools count as 0 and 1, strings parse as decimal. */
  function LiteralInt(x: Literal): Option<int> {
    match x
    case LInt(i) => Some(i)
    case LReal(r) => Some(TruncReal(r))
    case LBool(b) => Some(BoolInt(b))
    case LStr(s) => Text.ParseIntBase10(s)
    case _ => None
  }

  /** The value text as a list: a list stays, anything else becomes
      `[int(x)]`; every failure here becomes `ValueError`. */
  function ValueList(text: string, literal: string -> Option<Literal>): (r: Result<seq<Literal>, Exc>)
    ensures r.Err? ==> r.error == ValueError
    ensures r.Err? <==> literal(text).None? || (!literal(text).value.LList? && LiteralInt(literal(text).value).None?)
    ensures r.Ok? && literal(text).value.LList? ==> r.value == literal(text).value.items
    ensures r.Ok? && !literal(text).value.LList? ==> r.value == [LInt(LiteralInt(literal(text).value).value)]
  {
    match literal(text)
    case None => Err(ValueError)
    case Some(LList(items)) => Ok(items)
    case Some(x) =>
      match LiteralInt(x)
      case None => Err(ValueError)
      case Some(n) => Ok([LInt(n)])
  }

  /** A quoted decimal string is written as the number it spells. */
  lemma ValueListOfDecimalString(text: string, literal: string -> Option<Literal>, n: nat)
    requires literal(text) == Some(LStr(Text.NatToDec(n)))
    ensures ValueList(text, literal) == Ok([LInt(n)])
  {
    Text.ParseDecRoundTrip(n);
  }

  /** The Modbus request a manual write sends. */
  datatype ManualOp = WriteSingle(reg: int, value: int, slave: int) | WriteMany(reg: int, values: seq<int>, slave: int)

  /** One scaled value goes out as a single-register write, any other
      number of values as a multiple-register write. */
  function ManualWrite(reg: int, vals: seq<Literal>, scale: int, slave: int): (r: Result<ManualOp, Exc>)
    ensures r.Ok? <==> ScaledItems(vals, scale).Ok?
    ensures r.Err? ==> ScaledItems(vals, scale) == Err(r.error)
    ensures r.Ok? ==> (r.value.WriteSingle? <==> |vals| == 1) && r.value.reg == reg && r.value.slave == slave
    ensures r.Ok? && r.value.WriteSingle? ==> r.value.value == ScaledItems(vals, scale).value[0]
    ensures r.Ok? && r.value.WriteMany? ==> r.value.values == ScaledItems(vals, scale).value
  {
    match ScaledItems(vals, scale)
    case Err(e) => Err(e)
    case Ok(xs) => if |xs| == 1 then Ok(WriteSingle(reg, xs[0], slave)) else Ok(WriteMany(reg, xs, slave))
  }

  function IntItems(xs: seq<int>): (ls: seq<Literal>)
    ensures |ls| == |xs| && forall i :: 0 <= i < |xs| ==> ls[i] == LInt(xs[i])
  {
    seq(|xs|, i requires 0 <= i < |xs| => LInt(xs[i]))
  }

  /** Scaling undone: engineering values `x * scale` are sent as `x`. */
  lemma {:induction false} ScaledItemsInverse(xs: seq<int>, scale: int)
    requires scale != 0
    ensures ScaledItems(IntItems(seq(|xs|, i requires 0 <= i < |xs| => xs[i] * scale)), scale) == Ok(xs)
  {
    var ys := seq(|xs|, i requires 0 <= i < |xs| => xs[i] * scale);
    if xs != [] {
      ModbusInv.TruncDivExact(xs[0], scale);
      assert IntItems(ys)[1..] == IntItems(seq(|xs[1..]|, i requires 0 <= i < |xs[1..]| => xs[1..][i] * scale));
      ScaledItemsInverse(xs[1..], scale);
      assert xs == [xs[0]] + xs[1..];
    }
  }

  /** The fields of the command panel.  The numeric ones are what `int()`
      makes of their texts (`register` in base 16, as `Text.ParseIntBase16`),
      `None` where it raises. */
  datatype CommandForm = CommandForm(
    proto: string, op: string, register: Option<int>, count: Option<int>, scale: Option<int>,
    value: string, portaCom: string, ipTcp: string, ipHub: string,
    slaveRtu: Option<int>, slaveAzzurro: Option<int>)

  /** What a successful command did. */
  datatype CommandResult =
    | ReadShown(reg: int, count: int, slave: int, values: seq<int>)
    | Written(request: ManualOp)
    | NoOperation

  /** The command panel's client and unit id: the driver's profiles, all
      with a 1 s timeout, TCP on unit 1. */
  function CommandLink(f: CommandForm): (r: Result<SnLink, Exc>)
    ensures r.Err? <==> (!ModbusInv.SupportedProto(f.proto)
                         || (f.proto == "RTU" && f.slaveRtu.None?)
                         || (f.proto == "AzzurroHUB" && f.slaveAzzurro.None?))
    ensures r.Err? ==> r.error == ValueError
    ensures r.Ok? ==> r.value.client == ModbusInv.ClientFor(f.proto, if f.proto == "TCP" then Some(f.ipTcp) else Some(f.ipHub),
                                                            None, Some(f.portaCom), 1.0).value
    ensures r.Ok? && f.proto == "TCP" ==> r.value.slave == 1
    ensures r.Ok? && f.proto == "RTU" ==> r.value.slave == f.slaveRtu.value
    ensures r.Ok? && f.proto == "AzzurroHUB" ==> r.value.slave == f.slaveAzzurro.value
  {
    if f.proto == "RTU" then
      if f.slaveRtu.None? then Err(ValueError)
      else Ok(SnLink(ModbusInv.SerialClient(Some(f.portaCom), 9600, 8, 'N', 1, 1.0), f.slaveRtu.value))
    else if f.proto == "TCP" then Ok(SnLink(ModbusInv.TcpClient(Some(f.ipTcp), 8899, 1.0), 1))
    else if f.proto == "AzzurroHUB" then
      if f.slaveAzzurro.None? then Err(ValueError)
      else Ok(SnLink(ModbusInv.TcpClient(Some(f.ipHub), 55400, 1.0), f.slaveAzzurro.value))
    else Err(ValueError)
  }

  /** `send_command()`: `connected` is `client.connect()`, `readReply` the
      read's outcome (`Falsy` for an error result), `writeFault` what the
      write call raises, if anything, and `literal` is `ast.literal_eval`.
      An `Err` is the message shown. */
  function SendCommand(f: CommandForm, literal: string -> Option<Literal>, connected: bool,
                       readReply: ModbusInv.Attempt<seq<Word>>, writeFault: Option<Exc>): (r: Result<CommandResult, Exc>)
    ensures r.Ok? ==> f.register.Some? && f.count.Some? && f.scale.Some? && CommandLink(f).Ok? && connected
    ensures f.register.None? || f.count.None? || f.scale.None? ==> r == Err(ValueError)
    ensures f.register.Some? && f.count.Some? && f.scale.Some? && CommandLink(f).Err? ==>
              r == Err(CommandLink(f).error)
    ensures f.register.Some? && f.count.Some? && f.scale.Some? && CommandLink(f).Ok? && !connected ==>
              r == Err(ConnectionError)
    ensures r.Ok? && f.op == "Scrittura" ==>
              r.value.Written?
              && ValueList(f.value, literal).Ok?
              && Ok(r.value.request) == ManualWrite(f.register.value, ValueList(f.value, literal).value,
                                                    f.scale.value, CommandLink(f).value.slave)
    ensures r.Ok? && f.op == "Lettura" ==>
              r.value.ReadShown? && readReply.Returned?
              && r.value.reg == f.register.value && r.value.count == f.count.value
              && r.value.slave == CommandLink(f).value.slave
              && r.value.values == seq(|readReply.value|, i requires 0 <= i < |readReply.value|
                                         => readReply.value[i] * f.scale.value)
    ensures r.Ok? && f.op == "Scrittura" ==> writeFault.None?
    ensures (f.op == "Scrittura" && f.register.Some? && f.count.Some? && f.scale.Some? && CommandLink(f).Ok?
             && connected && ValueList(f.value, literal).Ok?
             && ManualWrite(f.register.value, ValueList(f.value, literal).value, f.scale.value, CommandLink(f).value.slave).Ok?
             && writeFault.Some?) ==> r == Err(writeFault.value)
    ensures (f.op == "Lettura" && f.register.Some? && f.count.Some? && f.scale.Some? && CommandLink(f).Ok?
             && connected && readReply.Falsy?) ==> r == Err(IOError)
    ensures (f.op == "Lettura" && f.register.Some? && f.count.Some? && f.scale.Some? && CommandLink(f).Ok?
             && connected && readReply.Raised?) ==> r == Err(readReply.error)
    ensures (f.op == "Scrittura" && f.register.Some? && f.count.Some? && f.scale.Some? && CommandLink(f).Ok?
             && connected && ValueList(f.value, literal).Err?) ==> r == Err(ValueList(f.value, literal).error)
    ensures (f.op == "Scrittura" && f.register.Some? && f.count.Some? && f.scale.Some? && CommandLink(f).Ok?
             && connected && ValueList(f.value, literal).Ok?
             && ManualWrite(f.register.value, ValueList(f.value, literal).value, f.scale.value, CommandLink(f).value.slave).Err?)
            ==> r == Err(ManualWrite(f.register.value, ValueList(f.value, literal).value, f.scale.value,
                                     CommandLink(f).value.slave).error)
    ensures (f.op != "Lettura" && f.op != "Scrittura" && f.register.Some? && f.count.Some? && f.scale.Some?
             && CommandLink(f).Ok? && connected) ==> r == Ok(NoOperation)
  {
    if f.register.None? || f.count.None? || f.scale.None? then Err(ValueError)
    else match CommandLink(f)
      case Err(e) => Err(e)
      case Ok(link) =>
        var reg, scale := f.register.value, f.scale.value;
        if !connected then Err(ConnectionError)
        else if f.op == "Lettura" then
          match readReply
          case Returned(regs) =>
            Ok(ReadShown(reg, f.count.value, link.slave, seq(|regs|, i requires 0 <= i < |regs| => regs[i] * scale)))
          case Falsy => Err(IOError)
          case Raised(e) => Err(e)
        else if f.op == "Scrittura" then
          match ValueList(f.value, literal)
          case Err(e) => Err(e)
          case Ok(vals) =>
            match ManualWrite(reg, vals, scale, link.slave)
            case Err(e) => Err(e)
            case Ok(w) =>
              match writeFault
              case Some(e) => Err(e)
              case None => Ok(Written(w))
        else Ok(NoOperation)
  }
}
