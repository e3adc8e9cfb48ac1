/** The test sequencer helpers (drivers/test.py): template cell parsing
    and register writes, the UI-to-configuration conversion, serial
    number parsing, the battery setpoint words, DC channel selection,
    the safe shutdown after a test and the playlist filter.

    Spreadsheet cells are values of `Cell`; `ast.literal_eval` is an
    oracle from text to a cell (`None` where it raises). */
module Sequencer {
  import opened Wrappers
  import opened Exceptions
  import Lists
  import Text
  import ModbusInv
  import Instruments

  // ---------------------------------------------------------------------
  // Template cells and apply_template_writes
  // ---------------------------------------------------------------------

  /** A value read from a template cell or produced by `literal_eval`;
      `Items` is a list or a tuple. */
  datatype Cell = Int(i: int) | Real(r: real) | Str(s: string) | Items(items: seq<Cell>) | Other

  /** `_as_py(x)`: stripped text that starts with a bracket goes through
      `literal_eval`; anything else, or a failed parse, is kept as is. */
  function AsPy(x: Cell, literal: string -> Option<Cell>): (r: Cell)
    ensures !x.Str? ==> r == x
    ensures x.Str? && !Bracketed(Text.Strip(x.s)) ==> r == x
  {
    match x
    case Str(s) =>
      var t := Text.Strip(s);
      if Bracketed(t) then literal(t).GetOr(x) else x
    case _ => x
  }

  predicate Bracketed(t: string) {
    Text.StartsWith(t, "[") || Text.StartsWith(t, "(") || Text.StartsWith(t, "{")
  }

  /** One `ins.inv_broadcast_write(reg, value, scale=scale, role=role)`. */
  datatype BWrite = BWrite(reg: Cell, value: Cell, scale: int, role: Option<string>)

  predicate AllScalar(vs: seq<Cell>) {
    forall i :: 0 <= i < |vs| ==> !vs[i].Items?
  }

  /** One value written to each register in turn. */
  function EachWrites(rs: seq<Cell>, v: Cell, scale: int, role: Option<string>): (p: seq<BWrite>)
    ensures |p| == |rs| && forall j :: 0 <= j < |rs| ==> p[j] == BWrite(rs[j], v, scale, role)
  {
    seq(|rs|, j requires 0 <= j < |rs| => BWrite(rs[j], v, scale, role))
  }

  /** Value j written to register j. */
  function PairWrites(rs: seq<Cell>, vs: seq<Cell>, scale: int, role: Option<string>): (p: seq<BWrite>)
    requires |vs| == |rs|
    ensures |p| == |rs| && forall j :: 0 <= j < |rs| ==> p[j] == BWrite(rs[j], vs[j], scale, role)
  {
    seq(|rs|, j requires 0 <= j < |rs| => BWrite(rs[j], vs[j], scale, role))
  }

  /** The broadcasts `apply_template_writes` issues for parsed `regs` and
      `vals`, or the exception it raises first. */
  function TemplateWrites(regs: Cell, vals: Cell, scale: int, role: Option<string>): (r: Result<seq<BWrite>, Exc>)
    ensures r.Ok? ==> forall k :: 0 <= k < |r.value| ==> r.value[k].scale == scale && r.value[k].role == role
    ensures r.Ok? && !regs.Items? ==> r.value == [BWrite(regs, vals, scale, role)]
    ensures r.Ok? && regs.Items? ==> |r.value| == |regs.items|
                                     && forall k :: 0 <= k < |regs.items| ==> r.value[k].reg == regs.items[k]
    ensures r.Err? ==> regs.Items? && vals.Items?
    ensures r.Err? ==> (r.error == IndexError <==> AllScalar(vals.items))
    ensures r.Err? && r.error == IndexError ==> regs.items != [] && vals.items == []
    ensures r.Err? ==> r.error == IndexError || r.error == ValueError
  {
    if !regs.Items? then Ok([BWrite(regs, vals, scale, role)])
    else
      var rs := regs.items;
      if !vals.Items? then Ok(EachWrites(rs, vals, scale, role))
      else
        var vs := vals.items;
        if AllScalar(vs) then
          if |vs| == |rs| then Ok(PairWrites(rs, vs, scale, role))
          else if rs == [] then Ok([])
          else if vs == [] then Err(IndexError)
          else Ok(EachWrites(rs, vs[0], scale, role))
        else if |vs| != |rs| then Err(ValueError)
        else Ok(PairWrites(rs, vs, scale, role))
  }

  /** A register list with one scalar value writes that value to each
      register in order. */
  lemma WritesRepeatScalar(rs: seq<Cell>, v: Cell, scale: int, role: Option<string>)
    requires !v.Items?
    ensures TemplateWrites(Items(rs), v, scale, role).Ok?
    ensures forall k :: 0 <= k < |rs| ==> TemplateWrites(Items(rs), v, scale, role).value[k].value == v
  {
  }

  /** Equal-length register and scalar value lists are written pairwise;
      with unequal lengths the first value goes to every register. */
  lemma WritesFlatLists(rs: seq<Cell>, vs: seq<Cell>, scale: int, role: Option<string>)
    requires AllScalar(vs) && (|vs| == |rs| || vs != [])
    ensures TemplateWrites(Items(rs), Items(vs), scale, role).Ok?
    ensures |vs| == |rs| ==> forall k :: 0 <= k < |rs| ==> TemplateWrites(Items(rs), Items(vs), scale, role).value[k].value == vs[k]
    ensures |vs| != |rs| ==> forall k :: 0 <= k < |rs| ==> TemplateWrites(Items(rs), Items(vs), scale, role).value[k].value == vs[0]
  {
  }

  /** With nested value blocks the lengths must agree: a mismatch raises
      `ValueError` before any write, otherwise block k goes to register k. */
  lemma WritesBlocks(rs: seq<Cell>, vs: seq<Cell>, scale: int, role: Option<string>)
    requires !AllScalar(vs)
    ensures TemplateWrites(Items(rs), Items(vs), scale, role).Ok? <==> |vs| == |rs|
    ensures |vs| != |rs| ==> TemplateWrites(Items(rs), Items(vs), scale, role) == Err(ValueError)
    ensures |vs| == |rs| ==> forall k :: 0 <= k < |rs| ==> TemplateWrites(Items(rs), Items(vs), scale, role).value[k].value == vs[k]
  {
  }

  /** Issuing planned broadcasts in order, where `raised(w)` is the
      exception the broadcast of `w` raises, if any: the writes issued are
      the plan up to and including the first one that raises, and that
      exception ends the run. */
  function Issue(plan: seq<BWrite>, raised: BWrite -> Option<Exc>): (res: (seq<BWrite>, Option<Exc>))
    ensures |res.0| <= |plan|
    decreases |plan|
  {
    if plan == [] then ([], None)
    else if raised(plan[0]).Some? then ([plan[0]], raised(plan[0]))
    else
      var rest := Issue(plan[1..], raised);
      ([plan[0]] + rest.0, rest.1)
  }

  /** The writes issued are a prefix of the plan: all of it when nothing
      raises, otherwise everything up to the first write that raises,
      whose exception is the outcome. */
  lemma {:induction false} IssuePrefix(plan: seq<BWrite>, raised: BWrite -> Option<Exc>)
    ensures var res := Issue(plan, raised);
            res.0 == plan[..|res.0|]
            && (res.1.None? <==> forall k :: 0 <= k < |plan| ==> raised(plan[k]).None?)
            && (res.1.None? ==> res.0 == plan)
            && (res.1.Some? ==> res.0 != [] && res.1 == raised(res.0[|res.0| - 1])
                                && forall k :: 0 <= k < |res.0| - 1 ==> raised(res.0[k]).None?)
    decreases |plan|
  {
    if plan != [] && raised(plan[0]).None? {
      IssuePrefix(plan[1..], raised);
      var rest := Issue(plan[1..], raised);
      assert forall k :: 1 <= k < |plan| ==> plan[k] == plan[1..][k - 1];
      assert forall k :: 1 <= k < |rest.0| + 1 ==> ([plan[0]] + rest.0)[k] == rest.0[k - 1];
    }
  }

  /** When the first k planned writes do not raise, the run is decided
      by write k: if it raises, the issued writes end with it; past the
      end of the plan, everything was issued. */
  lemma {:induction false} IssueUpTo(plan: seq<BWrite>, k: nat, raised: BWrite -> Option<Exc>)
    requires k <= |plan| && forall j :: 0 <= j < k ==> raised(plan[j]).None?
    ensures k < |plan| && raised(plan[k]).Some? ==> Issue(plan, raised) == (plan[..k + 1], raised(plan[k]))
    ensures k == |plan| ==> Issue(plan, raised) == (plan, None)
    decreases k
  {
    if k > 0 {
      assert forall j :: 0 <= j < k - 1 ==> plan[1..][j] == plan[j + 1];
      IssueUpTo(plan[1..], k - 1, raised);
      assert raised(plan[0]).None?;
      if k < |plan| {
        assert plan[..k + 1] == [plan[0]] + plan[1..][..k];
      } else {
        assert plan == [plan[0]] + plan[1..];
      }
    } else if plan != [] {
      assert plan[..1] == [plan[0]];
    }
  }

  /** The outcome of a run that raised `e`, if anything. */
  function Completion(e: Option<Exc>): (r: Result<(), Exc>)
    ensures r.Err? <==> e.Some?
    ensures r.Err? ==> r.error == e.value
  {
    match e
    case None => Ok(())
    case Some(x) => Err(x)
  }

  /** `apply_template_writes(ins, role, regs, vals, scale)`: the
      broadcasts issued, in order, and how the call ends. A shape error
      raises before any write; otherwise the planned writes are issued
      until one of them raises. */
  method ApplyTemplateWrites(role: Option<string>, regs: Cell, vals: Cell, scale: int,
                             literal: string -> Option<Cell>, raised: BWrite -> Option<Exc>)
    returns (issued: seq<BWrite>, r: Result<(), Exc>)
    ensures var plan := TemplateWrites(AsPy(regs, literal), AsPy(vals, literal), scale, role);
            plan.Err? ==> issued == [] && r == Err(plan.error)
    ensures var plan := TemplateWrites(AsPy(regs, literal), AsPy(vals, literal), scale, role);
            plan.Ok? ==> issued == Issue(plan.value, raised).0 && r == Completion(Issue(plan.value, raised).1)
  {
    var rc := AsPy(regs, literal);
    var vc := AsPy(vals, literal);
    var e: Option<Exc>;
    // case A: one register
    if !rc.Items? {
      var w := BWrite(rc, vc, scale, role);
      issued, e := [w], raised(w);
      return issued, Completion(e);
    }
    var rs := rc.items;
    // case B: a register list and one value
    if !vc.Items? {
      issued, e := WriteEach(rs, vc, scale, role, raised);
      return issued, Completion(e);
    }
    var vs := vc.items;
    // case C: a register list and a flat value list
    if AllScalar(vs) {
      if |vs| != |rs| {
        // `vals[0]` is evaluated before the first write
        if vs == [] {
          return [], Err(IndexError);
        }
        issued, e := WriteEach(rs, vs[0], scale, role, raised);
        return issued, Completion(e);
      }
      issued, e := WritePairwise(rs, vs, scale, role, raised);
      return issued, Completion(e);
    }
    // case D: a register list and value blocks
    if |vs| != |rs| {
      return [], Err(ValueError);
    }
    issued, e := WritePairwise(rs, vs, scale, role, raised);
    r := Completion(e);
  }

  /** `for r in regs: ins.inv_broadcast_write(r, v, …)` */
  method WriteEach(rs: seq<Cell>, v: Cell, scale: int, role: Option<string>, raised: BWrite -> Option<Exc>)
    returns (log: seq<BWrite>, e: Option<Exc>)
    ensures (log, e) == Issue(EachWrites(rs, v, scale, role), raised)
  {
    ghost var plan := EachWrites(rs, v, scale, role);
    log := [];
    var k := 0;
    while k < |rs|
      invariant 0 <= k <= |rs|
      invariant log == plan[..k]
      invariant forall j :: 0 <= j < k ==> raised(plan[j]).None?
    {
      var w := BWrite(rs[k], v, scale, role);
      if raised(w).Some? {
        IssueUpTo(plan, k, raised);
        assert plan[..k + 1] == log + [w];
        return log + [w], raised(w);
      }
      log := log + [w];
      k := k + 1;
    }
    IssueUpTo(plan, k, raised);
    assert log == plan;
    e := None;
  }

  /** `for r, v in zip(regs, vals): ins.inv_broadcast_write(r, v, …)` */
  method WritePairwise(rs: seq<Cell>, vs: seq<Cell>, scale: int, role: Option<string>, raised: BWrite -> Option<Exc>)
    returns (log: seq<BWrite>, e: Option<Exc>)
    requires |vs| == |rs|
    ensures (log, e) == Issue(PairWrites(rs, vs, scale, role), raised)
  {
    ghost var plan := PairWrites(rs, vs, scale, role);
    log := [];
    var k := 0;
    while k < |rs|
      invariant 0 <= k <= |rs|
      invariant log == plan[..k]
      invariant forall j :: 0 <= j < k ==> raised(plan[j]).None?
    {
      var w := BWrite(rs[k], vs[k], scale, role);
      if raised(w).Some? {
        IssueUpTo(plan, k, raised);
        assert plan[..k + 1] == log + [w];
        return log + [w], raised(w);
      }
      log := log + [w];
      k := k + 1;
    }
    IssueUpTo(plan, k, raised);
    assert log == plan;
    e := None;
  }

  // ---------------------------------------------------------------------
  // build_inv_cfgs_from_ui
  // ---------------------------------------------------------------------

  /** One inverter row of the UI.  For `ip` and `address`, `None` is a
      missing key or a key holding None (both are falsy to `or`); for
      `modbus` and `alimentatore` it is a missing key, which `inv["modbus"]`
      turns into `KeyError` and `get` into the default.  A row holding
      `alimentatore: None` is not modelled: the log panel
      (PannelloTest.py:407) always stores a string there. */
  datatype UiEntry = UiEntry(
    ip: Option<string>,
    address: Option<string>,
    modbus: Option<Instruments.ModbusId>,
    slave: bool,
    alimentatore: Option<string>)

  function DefaultName(idx: nat): string {
    "INV" + Text.NatToDec(idx)
  }

  /** The record built for the UI row at 1-based position `idx`; only
      `int(inv["modbus"])` can raise. */
  function CfgFor(e: UiEntry, idx: nat): (r: Result<Instruments.InvCfg, Exc>)
    ensures r.Ok? <==> Instruments.SlaveId(e.modbus).Ok?
    ensures r.Ok? ==> r.value.name == Some(DefaultName(idx)) && r.value.isSlave == e.slave
    ensures r.Ok? ==> r.value.alimentatore == Some(e.alimentatore.GetOr("Nessuno")) && r.value.proto.None?
    ensures r.Ok? ==> r.value.address == Some(if Instruments.Truthy(e.ip) then e.ip else e.address)
    ensures r.Ok? ==> r.value.modbus == Some(Instruments.IdNum(Instruments.SlaveId(e.modbus).value))
    ensures r.Err? ==> r.error == Instruments.SlaveId(e.modbus).error
  {
    match Instruments.SlaveId(e.modbus)
    case Err(err) => Err(err)
    case Ok(m) =>
      Ok(Instruments.InvCfg(Some(DefaultName(idx)), e.slave, Some(e.alimentatore.GetOr("Nessuno")), None,
                            Some(if Instruments.Truthy(e.ip) then e.ip else e.address),
                            Some(Instruments.IdNum(m))))
  }

  /** The first row whose Modbus id does not convert. */
  function FirstBadRow(entries: seq<UiEntry>, i: nat): (k: nat)
    requires i <= |entries|
    ensures i <= k <= |entries|
    ensures k < |entries| ==> Instruments.SlaveId(entries[k].modbus).Err?
    ensures forall j :: i <= j < k ==> Instruments.SlaveId(entries[j].modbus).Ok?
    decreases |entries| - i
  {
    if i == |entries| then i
    else if Instruments.SlaveId(entries[i].modbus).Err? then i
    else FirstBadRow(entries, i + 1)
  }

  /** `build_inv_cfgs_from_ui(protocol, inverter_data)`: one record per
      row, named INV1, INV2, ...; the first row without a valid Modbus id
      raises. */
  method BuildInvCfgsFromUi(entries: seq<UiEntry>) returns (r: Result<seq<Instruments.InvCfg>, Exc>)
    ensures r.Ok? <==> FirstBadRow(entries, 0) == |entries|
    ensures r.Ok? ==> |r.value| == |entries|
                      && forall i :: 0 <= i < |entries| ==> r.value[i] == CfgFor(entries[i], i + 1).value
    ensures r.Err? ==> r.error == Instruments.SlaveId(entries[FirstBadRow(entries, 0)].modbus).error
  {
    var cfgs: seq<Instruments.InvCfg> := [];
    var i := 0;
    while i < |entries|
      invariant 0 <= i <= |entries|
      invariant FirstBadRow(entries, 0) == FirstBadRow(entries, i)
      invariant |cfgs| == i && forall j :: 0 <= j < i ==> CfgFor(entries[j], j + 1).Ok? && cfgs[j] == CfgFor(entries[j], j + 1).value
    {
      var c := CfgFor(entries[i], i + 1);
      if c.Err? {
        return Err(c.error);
      }
      cfgs := cfgs + [c.value];
      i := i + 1;
    }
    r := Ok(cfgs);
  }

  /** Records built from the UI and fed to the facade: when the protocol
      is supported and every driver constructs, the inverters are
      INV1..INVn in row order. */
  lemma UiRowsBecomeInverters(cfgs: seq<Instruments.InvCfg>, entries: seq<UiEntry>,
                              protocol: Option<string>, driverOk: nat -> bool)
    requires |cfgs| == |entries|
    requires forall i :: 0 <= i < |entries| ==> CfgFor(entries[i], i + 1).Ok? && cfgs[i] == CfgFor(entries[i], i + 1).value
    requires ModbusInv.SupportedProto(Instruments.EffectiveProto(protocol, None))
    requires forall i :: 1 <= i <= |entries| ==> driverOk(i)
    ensures Instruments.Build(cfgs, protocol, driverOk).keys == Instruments.DefaultNames(|entries|)
  {
    forall i | 0 <= i < |cfgs|
      ensures Instruments.NodeName(cfgs[i], i + 1) == "INV" + Text.NatToDec(i + 1)
      ensures Instruments.NodeFor(cfgs[i], i + 1, protocol, driverOk(i + 1)).Ok?
    {
      assert Instruments.SlaveId(cfgs[i].modbus).Ok?;
    }
    Instruments.BuildDefaultNames(cfgs, protocol, driverOk);
  }

  // ---------------------------------------------------------------------
  // parse_sn
  // ---------------------------------------------------------------------

  predicate IsAsciiAlnum(c: char) {
    'A' <= c <= 'Z' || 'a' <= c <= 'z' || '0' <= c <= '9'
  }

  predicate AllAlnum(s: string) {
    forall i :: 0 <= i < |s| ==> IsAsciiAlnum(s[i])
  }

  /** `[A-Za-z0-9]{14}|[A-Za-z0-9]{20}` as a full match. */
  predicate WellFormedSn(s: string) {
    (|s| == 14 || |s| == 20) && AllAlnum(s)
  }

  /** The dictionary `parse_sn` returns. */
  datatype SnInfo = SnInfo(length: nat, raw: string, familyPrefix: string, family: string, modelCode: string)

  /** `parse_sn(sn)`: `None` for a missing or empty value and for
      anything that is not 14 or 20 alphanumerics once stripped. */
  function ParseSn(sn: Option<string>): (r: Option<SnInfo>)
    ensures r.Some? <==> sn.Some? && WellFormedSn(Text.Strip(sn.value))
    ensures r.Some? ==> r.value.raw == Text.Strip(sn.value) && r.value.length == |r.value.raw|
                        && r.value.familyPrefix == r.value.family
    ensures r.Some? && r.value.length == 14 ==>
              r.value.family == r.value.raw[..3] && r.value.modelCode == r.value.raw[3..8]
    ensures r.Some? && r.value.length == 20 ==>
              r.value.family == r.value.raw[..6] && r.value.modelCode == r.value.raw[6..9]
  {
    if sn.None? || sn.value == "" then None
    else
      var s := Text.Strip(sn.value);
      if !WellFormedSn(s) then None
      else if |s| == 14 then Some(SnInfo(14, s, s[..3], s[..3], s[3..8]))
      else Some(SnInfo(20, s, s[..6], s[..6], s[6..9]))
  }

  /** Parsing the raw serial of a parse result gives the same result. */
  lemma ParseSnStable(sn: Option<string>)
    requires ParseSn(sn).Some?
    ensures ParseSn(Some(ParseSn(sn).value.raw)) == ParseSn(sn)
  {
    var s := ParseSn(sn).value.raw;
    assert Text.NoSpace(s) by {
      forall i | 0 <= i < |s| ensures !Text.IsSpace(s[i]) {
        assert IsAsciiAlnum(s[i]);
      }
    }
  }

  // ---------------------------------------------------------------------
  // Battery setpoint (one template row)
  // ---------------------------------------------------------------------

  /** `max(0, min(65535, p))` */
  function ClampPower(p: int): (c: int)
    ensures 0 <= c <= 65535
    ensures 0 <= p <= 65535 ==> c == p
    ensures p < 0 ==> c == 0
    ensures p > 65535 ==> c == 65535
  {
    if p < 0 then 0 else if p > 65535 then 65535 else p
  }

  /** The four words written to 0x1189: two copies of a (high, low) pair. */
  function BatteryWords(p: int, discharge: bool): (w: seq<int>)
    ensures |w| == 4 && w[..2] == w[2..]
    ensures forall k :: 0 <= k < 4 ==> 0 <= w[k] <= 65535
  {
    var c := ClampPower(p);
    if discharge then [65535, 65535 - c, 65535, 65535 - c] else [0, c, 0, c]
  }

  /** A (high, low) word pair read as a signed 32-bit integer. */
  function Signed32(hi: int, lo: int): int {
    var u := hi * 65536 + lo;
    if u >= 0x8000_0000 then u - 0x1_0000_0000 else u
  }

  /** Read as signed 32-bit pairs, charging requests p and discharging
      requests -(p + 1): the low word is the one's complement of p. */
  lemma BatteryWordsAsSigned(p: int, discharge: bool)
    ensures var w := BatteryWords(p, discharge);
            Signed32(w[0], w[1]) == (if discharge then -(ClampPower(p) + 1) else ClampPower(p))
  {
  }

  /** `int(x)` on a template cell (text with surrounding blanks, an int,
      or a number truncated toward zero). */
  function CellToInt(x: Cell): Result<int, Exc> {
    match x
    case Int(i) => Ok(i)
    case Real(r) => Ok(if r >= 0.0 then r.Floor else -((-r).Floor))
    case Str(s) =>
      (match Text.ParseIntBase10(s)
       case Some(n) => Ok(n)
       case None => Err(ValueError))
    case _ => Err(TypeError)
  }

  /** The battery block of a template row: unless the power cell is
      'no', write mode 3 to 0x1110, then the setpoint words to 0x1189. */
  function BatteryWrites(power: Cell, ctrl: Cell): (r: Result<seq<BWrite>, Exc>)
    ensures power == Str("no") ==> r == Ok([])
    ensures r.Ok? && power != Str("no") ==>
              |r.value| == 2 && r.value[0] == BWrite(Str("0x1110"), Int(3), 1, None)
              && r.value[1].reg == Str("0x1189") && r.value[1].value.Items?
              && |r.value[1].value.items| == 4
              && forall k :: 0 <= k < 4 ==> (r.value[1].value.items[k].Int?
                                             && 0 <= r.value[1].value.items[k].i <= 65535)
    ensures r.Err? <==> power != Str("no") && CellToInt(power).Err?
    ensures r.Ok? && power != Str("no") ==>
              forall k :: 0 <= k < 4 ==>
                r.value[1].value.items[k] == Int(BatteryWords(CellToInt(power).value, ctrl == Str("scarica"))[k])
  {
    if power == Str("no") then Ok([])
    else
      match CellToInt(power)
      case Err(e) => Err(e)
      case Ok(p) =>
        var w := BatteryWords(p, ctrl == Str("scarica"));
        Ok([BWrite(Str("0x1110"), Int(3), 1, None),
            BWrite(Str("0x1189"), Items([Int(w[0]), Int(w[1]), Int(w[2]), Int(w[3])]), 1, None)])
  }

  /** The battery block's two writes go out in order: when the mode write
      to 0x1110 raises, the setpoint write to 0x1189 is never issued. */
  lemma BatteryModeWriteRaises(power: Cell, ctrl: Cell, raised: BWrite -> Option<Exc>)
    requires power != Str("no") && CellToInt(power).Ok?
    requires raised(BWrite(Str("0x1110"), Int(3), 1, None)).Some?
    ensures BatteryWrites(power, ctrl).Ok?
    ensures Issue(BatteryWrites(power, ctrl).value, raised).0 == [BWrite(Str("0x1110"), Int(3), 1, None)]
  {
  }

  /** The two battery registers as the driver parses them. */
  lemma BatteryRegisters()
    ensures ModbusInv.ParseRegister(ModbusInv.RegText("0x1110")) == Ok(0x1110)
    ensures ModbusInv.ParseRegister(ModbusInv.RegText("0x1189")) == Ok(0x1189)
  {
    assert Text.HexFixed(0x1, 1) == "1";
    assert Text.HexFixed(0x11, 2) == "11";
    assert Text.HexFixed(0x111, 3) == "111";
    assert Text.HexFixed(0x118, 3) == "118";
    var a := "0x" + Text.HexFixed(0x1110, 4);
    var b := "0x" + Text.HexFixed(0x1189, 4);
    assert a == "0x1110";
    assert b == "0x1189";
    ModbusInv.ParseRegisterText(0x1110);
    ModbusInv.ParseRegisterText(0x1189);
  }

  /** With scale 1 the driver sends the setpoint words unchanged. */
  lemma BatteryWordsUnscaled(p: int, discharge: bool)
    ensures ModbusInv.ScaleValues(BatteryWords(p, discharge), 1) == Ok(BatteryWords(p, discharge))
  {
    ModbusInv.ScaleValuesInverse(BatteryWords(p, discharge), 1);
  }

  // ---------------------------------------------------------------------
  // DC channel selection and configuration
  // ---------------------------------------------------------------------

  /** Some entry of an "on/off DCk" column is not 'no'. */
  predicate AnyNotNo(col: seq<Cell>) {
    exists i :: 0 <= i < |col| && col[i] != Str("no")
  }

  /** The loop with `break` over one column. */
  method ColumnUsed(col: seq<Cell>) returns (yes: bool)
    ensures yes == AnyNotNo(col)
  {
    yes := false;
    var i := 0;
    while i < |col|
      invariant 0 <= i <= |col|
      invariant forall j :: 0 <= j < i ==> col[j] == Str("no")
    {
      if col[i] != Str("no") {
        yes := true;
        break;
      }
      i := i + 1;
    }
  }

  /** The channels a test drives: DCk when the template path contains
      "DCk" or its on/off column is used, in DC1..DC3 order. */
  function DcChannels(path: string, used1: bool, used2: bool, used3: bool): (r: seq<string>)
    ensures Lists.IsSubseq(r, ["DC1", "DC2", "DC3"])
    ensures "DC1" in r <==> Text.Contains(path, "DC1") || used1
    ensures "DC2" in r <==> Text.Contains(path, "DC2") || used2
    ensures "DC3" in r <==> Text.Contains(path, "DC3") || used3
  {
    (if Text.Contains(path, "DC1") || used1 then ["DC1"] else [])
    + (if Text.Contains(path, "DC2") || used2 then ["DC2"] else [])
    + (if Text.Contains(path, "DC3") || used3 then ["DC3"] else [])
  }

  method SelectDcChannels(path: string, col1: seq<Cell>, col2: seq<Cell>, col3: seq<Cell>)
    returns (channels: seq<string>)
    ensures channels == DcChannels(path, AnyNotNo(col1), AnyNotNo(col2), AnyNotNo(col3))
  {
    var u1 := ColumnUsed(col1);
    var u2 := ColumnUsed(col2);
    var u3 := ColumnUsed(col3);
    var in1, in2, in3 := Text.Contains(path, "DC1"), Text.Contains(path, "DC2"), Text.Contains(path, "DC3");
    channels := [];
    if in1 || u1 {
      channels := channels + ["DC1"];
    }
    assert channels == if in1 || u1 then ["DC1"] else [];
    if in2 || u2 {
      channels := channels + ["DC2"];
    }
    assert channels == (if in1 || u1 then ["DC1"] else []) + (if in2 || u2 then ["DC2"] else []);
    if in3 || u3 {
      channels := channels + ["DC3"];
    }
  }

  /** The solar-mode configuration calls for the selected channels that
      the facade knows. */
  function ConfigCalls(known: map<string, string>, channels: seq<string>): (c: seq<Instruments.DevCall>)
    ensures |c| <= |channels|
  {
    if channels == [] then []
    else (if channels[0] in known then [Instruments.ConfigureSolar(channels[0], "DEF_C")] else [])
         + ConfigCalls(known, channels[1..])
  }

  /** Configuring the selected channels goes through the shared facade
      only: without one every attempt fails and is swallowed; an unknown
      channel or a failing device is swallowed too. */
  method ConfigureDcChannels(ins: Instruments.Instruments, channels: seq<string>, shared: bool,
                             reply: string -> Result<Instruments.ItechReply, Exc>)
    modifies ins
    ensures ins.dc == old(ins.dc) && ins.ac == old(ins.ac) && ins.inverters == old(ins.inverters)
    ensures ins.calls == old(ins.calls) + (if shared then ConfigCalls(ins.dc.values, channels) else [])
  {
    if !shared {
      return;
    }
    var i := 0;
    while i < |channels|
      invariant 0 <= i <= |channels|
      invariant ins.dc == old(ins.dc) && ins.ac == old(ins.ac) && ins.inverters == old(ins.inverters)
      invariant old(ins.calls) + ConfigCalls(ins.dc.values, channels)
                == ins.calls + ConfigCalls(ins.dc.values, channels[i..])
    {
      assert channels[i..][1..] == channels[i + 1..];
      var _ := ins.DcConfigItech(channels[i], "DEF_C", reply(channels[i]));
      i := i + 1;
    }
  }

  // ---------------------------------------------------------------------
  // The finally block of run_test_from_template
  // ---------------------------------------------------------------------

  /** The calls of the safe-quench loop: one 200 V / 1 A / 0.9 set-point
      per known channel, stopping after the first that raises (unknown
      channels only log). */
  function QuenchCalls(known: map<string, string>, channels: seq<string>, fault: string -> Option<Exc>)
    : (c: seq<Instruments.DevCall>)
    ensures |c| <= |channels|
    ensures forall k :: 0 <= k < |c| ==> c[k].SetIv? && c[k].dc in known
  {
    if channels == [] then []
    else if channels[0] !in known then QuenchCalls(known, channels[1..], fault)
    else [Instruments.SetIv(channels[0], 200.0, 1.0, 0.9)]
         + (if fault(channels[0]).Some? then [] else QuenchCalls(known, channels[1..], fault))
  }

  /** With no failing device, every known channel is quenched once, in
      order. */
  lemma {:induction false} QuenchAllWhenNoFault(known: map<string, string>, channels: seq<string>, fault: string -> Option<Exc>)
    requires forall k :: 0 <= k < |channels| ==> fault(channels[k]).None?
    ensures QuenchCalls(known, channels, fault)
            == QuenchAllCalls(known, channels)
  {
    if channels != [] {
      QuenchAllWhenNoFault(known, channels[1..], fault);
    }
  }

  /** The quench call sequence when no call raises: one 200 V / 1 A / 0.9
      set-point per known channel among `channels`, in order. */
  function QuenchAllCalls(known: map<string, string>, channels: seq<string>): seq<Instruments.DevCall> {
    if channels == [] then []
    else (if channels[0] in known then [Instruments.SetIv(channels[0], 200.0, 1.0, 0.9)] else [])
         + QuenchAllCalls(known, channels[1..])
  }

  /** A channel after the first failing one is never quenched. */
  lemma {:induction false} QuenchStopsAtFault(known: map<string, string>, channels: seq<string>,
                                              fault: string -> Option<Exc>, k: nat)
    requires k < |channels| && channels[k] in known && fault(channels[k]).Some?
    ensures |QuenchCalls(known, channels, fault)| <= k + 1
    ensures forall j :: 0 <= j < |QuenchCalls(known, channels, fault)| ==>
              QuenchCalls(known, channels, fault)[j].dc in channels[..k + 1]
  {
    if k > 0 {
      if channels[0] in known && fault(channels[0]).Some? {
      } else {
        QuenchStopsAtFault(known, channels[1..], fault, k - 1);
        var rest := QuenchCalls(known, channels[1..], fault);
        forall j | 0 <= j < |rest| ensures rest[j].dc in channels[..k + 1] {
          assert rest[j].dc in channels[1..][..k];
        }
      }
    }
  }

  /** The safe-quench loop: one `try` around the whole loop, so the
      first device that raises ends it. */
  method QuenchChannels(ins: Instruments.Instruments, channels: seq<string>, fault: string -> Option<Exc>)
    modifies ins
    ensures ins.dc == old(ins.dc) && ins.ac == old(ins.ac) && ins.inverters == old(ins.inverters)
    ensures ins.calls == old(ins.calls) + QuenchCalls(ins.dc.values, channels, fault)
  {
    var i := 0;
    while i < |channels|
      invariant 0 <= i <= |channels|
      invariant ins.dc == old(ins.dc) && ins.ac == old(ins.ac) && ins.inverters == old(ins.inverters)
      invariant old(ins.calls) + QuenchCalls(ins.dc.values, channels, fault)
                == ins.calls + QuenchCalls(ins.dc.values, channels[i..], fault)
    {
      assert channels[i..][1..] == channels[i + 1..];
      var r := ins.DcSetIv(channels[i], 200.0, 1.0, 0.9, fault(channels[i]));
      if r.Err? {
        return;
      }
      i := i + 1;
    }
  }

  /** The `finally` block: quench the selected channels, then close
      everything unless the facade is shared. */
  method SafeShutdown(ins: Instruments.Instruments, channels: seq<string>, shared: bool,
                      fault: string -> Option<Exc>)
    modifies ins
    ensures ins.dc == old(ins.dc) && ins.ac == old(ins.ac) && ins.inverters == old(ins.inverters)
    ensures ins.calls == old(ins.calls) + QuenchCalls(ins.dc.values, channels, fault)
                         + (if shared then []
                            else Instruments.CloseDcs(ins.dc.keys) + (if ins.ac.Some? then [Instruments.CloseAc] else [])
                                 + Instruments.CloseInvs(ins.inverters.keys))
  {
    QuenchChannels(ins, channels, fault);
    if !shared {
      ins.CloseAll();
    }
  }

  // ---------------------------------------------------------------------
  // run_tests_playlist
  // ---------------------------------------------------------------------

  /** A playlist line names a template when, stripped, it is neither
      blank nor a `#` comment. */
  predicate NamesTemplate(line: string) {
    var t := Text.Strip(line);
    t != [] && !Text.StartsWith(t, "#")
  }

  /** `[ln.strip() for ln in lines if ln.strip() and not ln.strip().startswith("#")]` */
  function PlaylistNames(lines: seq<string>): (names: seq<string>)
    ensures |names| <= |lines|
    ensures forall k :: 0 <= k < |names| ==>
              names[k] != [] && !Text.StartsWith(names[k], "#") && Text.Strip(names[k]) == names[k]
  {
    if lines == [] then []
    else
      var rest := PlaylistNames(lines[1..]);
      if NamesTemplate(lines[0]) then
        Text.StripIdempotent(lines[0]);
        [Text.Strip(lines[0])] + rest
      else rest
  }

  /** The names of a playlist in file order. */
  method ReadPlaylist(lines: seq<string>) returns (names: seq<string>)
    ensures names == PlaylistNames(lines)
  {
    names := [];
    var i := |lines|;
    while i > 0
      invariant 0 <= i <= |lines|
      invariant names == PlaylistNames(lines[i..])
    {
      i := i - 1;
      assert lines[i..][1..] == lines[i + 1..];
      if NamesTemplate(lines[i]) {
        names := [Text.Strip(lines[i])] + names;
      }
    }
  }

  /** The comprehension as a filter followed by a map. */
  lemma {:induction false} PlaylistIsMapFilter(lines: seq<string>)
    ensures PlaylistNames(lines) == Lists.MapFilter(lines, NamesTemplate, Text.Strip)
  {
    if lines != [] {
      PlaylistIsMapFilter(lines[1..]);
    }
  }

  /** Every line that names a template yields its name, and no other
      line yields anything. */
  lemma PlaylistKeepsNamedLines(lines: seq<string>)
    ensures forall k :: 0 <= k < |lines| && NamesTemplate(lines[k]) ==> Text.Strip(lines[k]) in PlaylistNames(lines)
    ensures |PlaylistNames(lines)| == |Lists.Filter(lines, NamesTemplate)|
  {
    PlaylistIsMapFilter(lines);
    forall k | 0 <= k < |lines| && NamesTemplate(lines[k])
      ensures Text.Strip(lines[k]) in PlaylistNames(lines)
    {
      Lists.MapFilterKeeps(lines, NamesTemplate, Text.Strip, k);
    }
  }

  /** The templates that run: the playlist names whose file exists, in
      order (`isFile` says whether `<folder>/<name>.xlsx` is a file). */
  method TemplatesToRun(names: seq<string>, isFile: string -> bool) returns (run: seq<string>)
    ensures run == Lists.Filter(names, isFile)
  {
    run := [];
    var i := |names|;
    while i > 0
      invariant 0 <= i <= |names|
      invariant run == Lists.Filter(names[i..], isFile)
    {
      i := i - 1;
      assert names[i..][1..] == names[i + 1..];
      if isFile(names[i]) {
        run := [names[i]] + run;
      }
    }
  }
}
