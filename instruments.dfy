/** The instruments facade (drivers/instruments.py): named DC sources, an
    optional AC source and a name -> inverter-node dictionary, with
    role-filtered broadcasts.

    Devices are abstract: every device call the facade makes is recorded
    in `calls`, and what a device call returns or raises is an input
    (`fault` for DC/AC calls, a per-name `reply` for inverter drivers). */
module Instruments {
  import opened Wrappers
  import opened Exceptions
  import Lists
  import Text
  import ModbusInv

  // ---------------------------------------------------------------------
  // Python dict with insertion order
  // ---------------------------------------------------------------------

  /** A Python `dict` keyed by strings: keys in insertion order. */
  datatype Dict<V> = Dict(keys: seq<string>, values: map<string, V>) {
    ghost predicate Valid() {
      Lists.Distinct(keys) && forall k :: k in keys <==> k in values
    }

    /** `d[k] = v`: a new key goes last, an existing key keeps its place. */
    function Put(k: string, v: V): (d: Dict<V>)
      ensures d.values == values[k := v]
      ensures k in keys ==> d.keys == keys
      ensures k !in keys ==> d.keys == keys + [k]
    {
      Dict(if k in keys then keys else keys + [k], values[k := v])
    }
  }

  function EmptyDict<V>(): Dict<V> {
    Dict([], map[])
  }

  /** Assignment keeps a dictionary well formed. */
  lemma PutValid<V>(d: Dict<V>, k: string, v: V)
    requires d.Valid()
    ensures d.Put(k, v).Valid()
  {
    var e := d.Put(k, v);
    if k !in d.keys {
      forall i, j | 0 <= i < j < |e.keys| ensures e.keys[i] != e.keys[j] {
        if j == |d.keys| {
          assert e.keys[i] == d.keys[i];
        }
      }
    }
  }

  /** The names of `pairs`, in order. */
  function PairNames<V>(pairs: seq<(string, V)>): (ns: seq<string>)
    ensures |ns| == |pairs| && forall i :: 0 <= i < |pairs| ==> ns[i] == pairs[i].0
  {
    seq(|pairs|, i requires 0 <= i < |pairs| => pairs[i].0)
  }

  /** Pair i is the last pair with its name. */
  predicate LastOfName<V>(pairs: seq<(string, V)>, i: nat)
    requires i < |pairs|
  {
    forall j :: i < j < |pairs| ==> pairs[j].0 != pairs[i].0
  }

  /** Every name of `pairs` is bound in `d` to its last pair's value. */
  ghost predicate BindsLast<V>(d: Dict<V>, pairs: seq<(string, V)>) {
    forall i :: 0 <= i < |pairs| && LastOfName(pairs, i) ==> pairs[i].0 in d.values && d.values[pairs[i].0] == pairs[i].1
  }

  /** `{name: addr for name, addr in pairs}`: the keys are exactly the
      names, each bound to its last pair's value; names that are already
      distinct (as a dict's items are) keep their order. */
  function FromPairs<V>(pairs: seq<(string, V)>): (d: Dict<V>)
    ensures d.Valid()
    ensures forall k :: k in d.values <==> k in PairNames(pairs)
    ensures BindsLast(d, pairs)
    ensures Lists.Distinct(PairNames(pairs)) ==> d.keys == PairNames(pairs)
  {
    if pairs == [] then EmptyDict()
    else
      var pre := pairs[..|pairs| - 1];
      var d := FromPairs(pre);
      var last := pairs[|pairs| - 1];
      PutValid(d, last.0, last.1);
      PutKeys(d, pairs);
      PutLastWins(d, pairs);
      PutOrder(d, pairs);
      d.Put(last.0, last.1)
  }

  /** The last pair, assigned into a dictionary whose keys are the other
      names, gives a dictionary whose keys are all the names. */
  lemma PutKeys<V>(d: Dict<V>, pairs: seq<(string, V)>)
    requires pairs != []
    requires forall k :: k in d.values <==> k in PairNames(pairs[..|pairs| - 1])
    ensures forall k :: k in d.Put(pairs[|pairs| - 1].0, pairs[|pairs| - 1].1).values <==> k in PairNames(pairs)
  {
    assert PairNames(pairs) == PairNames(pairs[..|pairs| - 1]) + [pairs[|pairs| - 1].0];
  }

  /** The same with the values: each name keeps its last pair's value. */
  lemma PutLastWins<V>(d: Dict<V>, pairs: seq<(string, V)>)
    requires pairs != []
    requires BindsLast(d, pairs[..|pairs| - 1])
    ensures BindsLast(d.Put(pairs[|pairs| - 1].0, pairs[|pairs| - 1].1), pairs)
  {
    var pre, last := pairs[..|pairs| - 1], pairs[|pairs| - 1];
    var e := d.Put(last.0, last.1);
    forall i | 0 <= i < |pairs| && LastOfName(pairs, i)
      ensures pairs[i].0 in e.values && e.values[pairs[i].0] == pairs[i].1
    {
      if i < |pre| {
        assert pairs[|pre|] == last;
        assert pre[i] == pairs[i];
        forall j | i < j < |pre| ensures pre[j].0 != pre[i].0 {
          assert pairs[j] == pre[j];
        }
        assert LastOfName(pre, i);
      }
    }
  }

  /** The same with the order: distinct names are the keys in order. */
  lemma PutOrder<V>(d: Dict<V>, pairs: seq<(string, V)>)
    requires pairs != []
    requires Lists.Distinct(PairNames(pairs[..|pairs| - 1])) ==> d.keys == PairNames(pairs[..|pairs| - 1])
    ensures Lists.Distinct(PairNames(pairs)) ==>
              d.Put(pairs[|pairs| - 1].0, pairs[|pairs| - 1].1).keys == PairNames(pairs)
  {
    var pre, last := pairs[..|pairs| - 1], pairs[|pairs| - 1];
    if Lists.Distinct(PairNames(pairs)) {
      assert PairNames(pairs) == PairNames(pre) + [last.0];
      assert Lists.Distinct(PairNames(pre));
      assert last.0 !in PairNames(pre);
    }
  }

  // ---------------------------------------------------------------------
  // Inverter configuration records and nodes
  // ---------------------------------------------------------------------

  /** The Modbus id of a record: an int, or text for `int()`. */
  datatype ModbusId = IdNum(n: int) | IdText(s: string)

  /** One inverter configuration record.  `None` is a missing key (the
      address key may be present with value None: `Some(None)`);
      `isSlave` is the truthiness of `cfg.get("is_slave")`. */
  datatype InvCfg = InvCfg(
    name: Option<string>,
    isSlave: bool,
    alimentatore: Option<string>,
    proto: Option<string>,
    address: Option<Option<string>>,
    modbus: Option<ModbusId>)

  /** An entry of the inverters dictionary. */
  datatype InverterNode = InverterNode(
    name: string,
    role: string,
    alimentatore: string,
    client: ModbusInv.Client,
    slave: int)

  /** A string or None used with `or`: the empty string is falsy too. */
  predicate Truthy(s: Option<string>) {
    s.Some? && s.value != ""
  }

  /** `protocol or cfg.get("proto") or "TCP"` */
  function EffectiveProto(protocol: Option<string>, cfgProto: Option<string>): (p: string)
    ensures p != ""
  {
    if Truthy(protocol) then protocol.value else if Truthy(cfgProto) then cfgProto.value else "TCP"
  }

  /** `cfg.get("name", f"INV{idx}")` */
  function NodeName(cfg: InvCfg, idx: nat): string {
    match cfg.name
    case Some(n) => n
    case None => "INV" + Text.NatToDec(idx)
  }

  function RoleOf(cfg: InvCfg): string {
    if cfg.isSlave then "slave" else "master"
  }

  /** `int(cfg["modbus"])` */
  function SlaveId(m: Option<ModbusId>): (r: Result<int, Exc>)
    ensures m.None? ==> r == Err(KeyError)
    ensures r.Err? ==> r.error == KeyError || r.error == ValueError
  {
    match m
    case None => Err(KeyError)
    case Some(IdNum(n)) => Ok(n)
    case Some(IdText(s)) =>
      match Text.ParseIntBase10(s)
      case Some(n) => Ok(n)
      case None => Err(ValueError)
  }

  /** The body of the `try` for the record at 1-based position `idx`:
      the node to store, or the exception that makes it skipped.
      `driverOk` says whether the client library's constructor succeeds. */
  function NodeFor(cfg: InvCfg, idx: nat, protocol: Option<string>, driverOk: bool): (r: Result<InverterNode, Exc>)
    ensures r.Ok? <==> ModbusInv.SupportedProto(EffectiveProto(protocol, cfg.proto))
                       && cfg.address.Some? && SlaveId(cfg.modbus).Ok? && driverOk
    ensures r.Ok? ==> r.value.name == NodeName(cfg, idx)
    ensures r.Ok? ==> r.value.role == RoleOf(cfg) && (r.value.role == "slave" <==> cfg.isSlave)
    ensures r.Ok? ==> r.value.alimentatore == cfg.alimentatore.GetOr("Nessuno")
    ensures r.Ok? ==> r.value.slave == SlaveId(cfg.modbus).value
    ensures r.Ok? ==> (r.value.client.SerialClient? <==> EffectiveProto(protocol, cfg.proto) == "RTU")
  {
    var proto := EffectiveProto(protocol, cfg.proto);
    if !ModbusInv.SupportedProto(proto) then Err(ValueError)
    else if cfg.address.None? then Err(KeyError)
    else
      match SlaveId(cfg.modbus)
      case Err(e) => Err(e)
      case Ok(slave) =>
        var ip := if proto == "RTU" then None else cfg.address.value;
        var com := if proto == "RTU" then cfg.address.value else None;
        var client := ModbusInv.ClientFor(proto, ip, None, com, 1.0);
        if !driverOk then Err(IOError)
        else Ok(InverterNode(NodeName(cfg, idx), RoleOf(cfg), cfg.alimentatore.GetOr("Nessuno"),
                             client.value, slave))
  }

  predicate RolesOk(d: Dict<InverterNode>) {
    forall n :: n in d.values ==> d.values[n].role == "master" || d.values[n].role == "slave"
  }

  /** The inverters dictionary after the records `cfgs` (positions
      1..|cfgs|) went through the constructor loop. */
  function Build(cfgs: seq<InvCfg>, protocol: Option<string>, driverOk: nat -> bool): (d: Dict<InverterNode>)
    ensures d.Valid() && RolesOk(d)
    ensures forall n :: n in d.values ==> d.values[n].name == n
    decreases |cfgs|
  {
    if cfgs == [] then EmptyDict()
    else
      var d := Build(cfgs[..|cfgs| - 1], protocol, driverOk);
      match NodeFor(cfgs[|cfgs| - 1], |cfgs|, protocol, driverOk(|cfgs|))
      case Err(_) => d
      case Ok(node) =>
        PutValid(d, node.name, node);
        d.Put(node.name, node)
  }

  /** One step of the constructor loop: the last record's node, when it
      constructs, is assigned into the dictionary built from the others. */
  lemma BuildLast(cfgs: seq<InvCfg>, protocol: Option<string>, driverOk: nat -> bool)
    requires cfgs != []
    ensures var r := NodeFor(cfgs[|cfgs| - 1], |cfgs|, protocol, driverOk(|cfgs|));
            var d := Build(cfgs[..|cfgs| - 1], protocol, driverOk);
            Build(cfgs, protocol, driverOk) == if r.Err? then d else d.Put(r.value.name, r.value)
  {
  }

  /** A name is in the dictionary exactly when some record constructs a
      node under that name: failed records are skipped, and no other
      record is lost. */
  lemma {:induction false} BuildNames(cfgs: seq<InvCfg>, protocol: Option<string>, driverOk: nat -> bool, n: string)
    ensures n in Build(cfgs, protocol, driverOk).keys
            <==> exists i :: 0 <= i < |cfgs| && NodeFor(cfgs[i], i + 1, protocol, driverOk(i + 1)).Ok?
                             && NodeFor(cfgs[i], i + 1, protocol, driverOk(i + 1)).value.name == n
    decreases |cfgs|
  {
    if cfgs != [] {
      var pre := cfgs[..|cfgs| - 1];
      BuildNames(pre, protocol, driverOk, n);
      BuildLast(cfgs, protocol, driverOk);
      var last := NodeFor(cfgs[|cfgs| - 1], |cfgs|, protocol, driverOk(|cfgs|));
      if n in Build(cfgs, protocol, driverOk).keys {
        if n in Build(pre, protocol, driverOk).keys {
          var i :| 0 <= i < |pre| && NodeFor(pre[i], i + 1, protocol, driverOk(i + 1)).Ok?
                   && NodeFor(pre[i], i + 1, protocol, driverOk(i + 1)).value.name == n;
          assert cfgs[i] == pre[i];
        } else {
          assert last.Ok? && last.value.name == n;
          assert cfgs[|cfgs| - 1] == cfgs[(|cfgs| - 1)];
        }
      } else {
        forall i | 0 <= i < |cfgs| && NodeFor(cfgs[i], i + 1, protocol, driverOk(i + 1)).Ok?
          ensures NodeFor(cfgs[i], i + 1, protocol, driverOk(i + 1)).value.name != n
        {
          if i < |pre| {
            assert cfgs[i] == pre[i];
          }
        }
      }
    }
  }

  /** The node stored under a name comes from the last record that
      constructs under that name (Python dict assignment overwrites). */
  lemma {:induction false} BuildLastWins(cfgs: seq<InvCfg>, protocol: Option<string>, driverOk: nat -> bool, k: nat)
    requires k < |cfgs|
    requires NodeFor(cfgs[k], k + 1, protocol, driverOk(k + 1)).Ok?
    requires forall j :: k < j < |cfgs| && NodeFor(cfgs[j], j + 1, protocol, driverOk(j + 1)).Ok?
               ==> NodeFor(cfgs[j], j + 1, protocol, driverOk(j + 1)).value.name
                   != NodeFor(cfgs[k], k + 1, protocol, driverOk(k + 1)).value.name
    ensures var node := NodeFor(cfgs[k], k + 1, protocol, driverOk(k + 1)).value;
            node.name in Build(cfgs, protocol, driverOk).values
            && Build(cfgs, protocol, driverOk).values[node.name] == node
    decreases |cfgs|
  {
    var pre := cfgs[..|cfgs| - 1];
    var node := NodeFor(cfgs[k], k + 1, protocol, driverOk(k + 1)).value;
    if k < |cfgs| - 1 {
      forall j | k < j < |pre| && NodeFor(pre[j], j + 1, protocol, driverOk(j + 1)).Ok?
        ensures NodeFor(pre[j], j + 1, protocol, driverOk(j + 1)).value.name != node.name
      {
        assert pre[j] == cfgs[j];
      }
      assert pre[k] == cfgs[k];
      BuildLastWins(pre, protocol, driverOk, k);
      var n := |cfgs| - 1;
      assert NodeFor(cfgs[n], n + 1, protocol, driverOk(n + 1)).Ok? ==>
               NodeFor(cfgs[n], n + 1, protocol, driverOk(n + 1)).value.name != node.name;
    }
    BuildLast(cfgs, protocol, driverOk);
  }

  /** `["INV1", ..., f"INV{n}"]` */
  function DefaultNames(n: nat): (r: seq<string>)
    ensures |r| == n
    ensures forall i :: 0 <= i < n ==> r[i] == "INV" + Text.NatToDec(i + 1)
  {
    if n == 0 then [] else DefaultNames(n - 1) + ["INV" + Text.NatToDec(n)]
  }

  lemma DefaultNameInjective(a: nat, b: nat)
    requires "INV" + Text.NatToDec(a) == "INV" + Text.NatToDec(b)
    ensures a == b
  {
    assert ("INV" + Text.NatToDec(a))[3..] == Text.NatToDec(a);
    assert ("INV" + Text.NatToDec(b))[3..] == Text.NatToDec(b);
    Text.NatToDecInjective(a, b);
  }

  /** INVn is not among INV1 .. INVm when n > m. */
  lemma DefaultNameFresh(m: nat, n: nat)
    requires m < n
    ensures "INV" + Text.NatToDec(n) !in DefaultNames(m)
  {
    var names := DefaultNames(m);
    forall i | 0 <= i < m ensures names[i] != "INV" + Text.NatToDec(n) {
      if names[i] == "INV" + Text.NatToDec(n) {
        DefaultNameInjective(i + 1, n);
      }
    }
  }

  /** When record k is (or defaults to) INVk and every record
      constructs, the dictionary holds INV1, INV2, ... in record order. */
  lemma {:induction false} BuildDefaultNames(cfgs: seq<InvCfg>, protocol: Option<string>, driverOk: nat -> bool)
    requires forall i :: 0 <= i < |cfgs| ==> NodeName(cfgs[i], i + 1) == "INV" + Text.NatToDec(i + 1)
    requires forall i :: 0 <= i < |cfgs| ==> NodeFor(cfgs[i], i + 1, protocol, driverOk(i + 1)).Ok?
    ensures Build(cfgs, protocol, driverOk).keys == DefaultNames(|cfgs|)
    decreases |cfgs|
  {
    if cfgs != [] {
      var n := |cfgs|;
      var pre := cfgs[..n - 1];
      forall i | 0 <= i < |pre|
        ensures NodeName(pre[i], i + 1) == "INV" + Text.NatToDec(i + 1)
        ensures NodeFor(pre[i], i + 1, protocol, driverOk(i + 1)).Ok?
      {
        assert pre[i] == cfgs[i];
      }
      BuildDefaultNames(pre, protocol, driverOk);
      BuildLast(cfgs, protocol, driverOk);
      var r := NodeFor(cfgs[n - 1], n, protocol, driverOk(n));
      assert r.Ok? && r.value.name == "INV" + Text.NatToDec(n);
      PutDefaultName(Build(pre, protocol, driverOk), r.value, n);
    }
  }

  /** Adding INVn to INV1 .. INV(n-1) gives INV1 .. INVn. */
  lemma PutDefaultName(d: Dict<InverterNode>, node: InverterNode, n: nat)
    requires 0 < n && d.keys == DefaultNames(n - 1) && node.name == "INV" + Text.NatToDec(n)
    ensures d.Put(node.name, node).keys == DefaultNames(n)
  {
    DefaultNameFresh(n - 1, n);
  }

  /** `[n for n, node in d.items() if node.role == role]`, or all keys. */
  function NamesWithRole(d: Dict<InverterNode>, role: Option<string>): (r: seq<string>)
    requires d.Valid()
    ensures Lists.IsSubseq(r, d.keys) && Lists.Distinct(r)
    ensures role.None? ==> r == d.keys
    ensures role.Some? ==> forall i :: 0 <= i < |r| ==> r[i] in d.values && d.values[r[i]].role == role.value
    ensures role.Some? ==> forall i :: 0 <= i < |d.keys| && d.values[d.keys[i]].role == role.value ==> d.keys[i] in r
  {
    match role
    case None =>
      assert Lists.IsSubseq(d.keys, d.keys) by { SubseqRefl(d.keys); }
      d.keys
    case Some(ro) =>
      var vs := d.values;
      Lists.FilterDistinct(d.keys, n => n in vs && vs[n].role == ro);
      Lists.Filter(d.keys, n => n in vs && vs[n].role == ro)
  }

  lemma {:induction false} SubseqRefl(s: seq<string>)
    ensures Lists.IsSubseq(s, s)
  {
    if s != [] {
      SubseqRefl(s[1..]);
    }
  }

  /** Masters and slaves split the dictionary: every inverter is named
      by exactly one of the two role filters. */
  lemma RolesPartition(d: Dict<InverterNode>)
    requires d.Valid() && RolesOk(d)
    ensures |NamesWithRole(d, Some("master"))| + |NamesWithRole(d, Some("slave"))| == |d.keys|
  {
    var vs := d.values;
    FilterSplit(d.keys, n => n in vs && vs[n].role == "master", n => n in vs && vs[n].role == "slave");
  }

  /** Two filters that pick complementary parts of a list add up to it. */
  lemma {:induction false} FilterSplit(s: seq<string>, p: string -> bool, q: string -> bool)
    requires forall i :: 0 <= i < |s| ==> p(s[i]) != q(s[i])
    ensures |Lists.Filter(s, p)| + |Lists.Filter(s, q)| == |s|
  {
    if s != [] {
      FilterSplit(s[1..], p, q);
    }
  }

  // ---------------------------------------------------------------------
  // Broadcasts
  // ---------------------------------------------------------------------

  /** `{n: call(n) for n in names}` where `reply(n)` is what the call on
      driver n returns or raises: the first exception aborts the whole
      comprehension. */
  function Broadcast<R>(names: seq<string>, reply: string -> Result<R, Exc>): (r: Result<seq<(string, R)>, Exc>)
    ensures r.Ok? <==> forall i :: 0 <= i < |names| ==> reply(names[i]).Ok?
    ensures r.Ok? ==> |r.value| == |names|
    ensures r.Ok? ==> forall i :: 0 <= i < |names| ==> r.value[i] == (names[i], reply(names[i]).value)
    ensures r.Err? ==> reply(names[Called(names, reply) - 1]) == Err(r.error)
  {
    if names == [] then Ok([])
    else
      match reply(names[0])
      case Err(e) => Err(e)
      case Ok(v) =>
        match Broadcast(names[1..], reply)
        case Err(e) => Err(e)
        case Ok(rest) => Ok([(names[0], v)] + rest)
  }

  /** How many drivers a broadcast calls: up to and including the first
      that raises. */
  function Called<R>(names: seq<string>, reply: string -> Result<R, Exc>): (n: nat)
    ensures n <= |names|
    ensures forall i :: 0 <= i < n - 1 ==> reply(names[i]).Ok?
    ensures n < |names| ==> n > 0 && reply(names[n - 1]).Err?
    ensures n == |names| && n > 0 ==> (reply(names[n - 1]).Err? || forall i :: 0 <= i < n ==> reply(names[i]).Ok?)
  {
    if names == [] then 0
    else if reply(names[0]).Err? then 1
    else 1 + Called(names[1..], reply)
  }

  /** A device call made by the facade. */
  datatype DevCall =
    | SetIv(dc: string, voc: real, isc: real, ff: real)
    | TurnOn(dc: string)
    | TurnOff(dc: string)
    | CloseDc(dc: string)
    | ConfigureSolar(dc: string, mode: string)
    | ConfigureAc(vrms: real, freq: real, phases: string)
    | AcTurnOn
    | AcTurnOff
    | CloseAc
    | ReadRegs(inv: string, reg: ModbusInv.RegRef, count: int)
    | WriteRegs(inv: string, reg: ModbusInv.RegRef, values: ModbusInv.WriteArg, scale: int)
    | CloseInv(inv: string)

  function CloseDcs(names: seq<string>): (c: seq<DevCall>)
    ensures |c| == |names| && forall i :: 0 <= i < |names| ==> c[i] == CloseDc(names[i])
  {
    seq(|names|, i requires 0 <= i < |names| => CloseDc(names[i]))
  }

  function CloseInvs(names: seq<string>): (c: seq<DevCall>)
    ensures |c| == |names| && forall i :: 0 <= i < |names| ==> c[i] == CloseInv(names[i])
  {
    seq(|names|, i requires 0 <= i < |names| => CloseInv(names[i]))
  }

  function WriteCalls(names: seq<string>, reg: ModbusInv.RegRef, values: ModbusInv.WriteArg, scale: int): (c: seq<DevCall>)
    ensures |c| == |names| && forall i :: 0 <= i < |names| ==> c[i] == WriteRegs(names[i], reg, values, scale)
  {
    seq(|names|, i requires 0 <= i < |names| => WriteRegs(names[i], reg, values, scale))
  }

  function ReadCalls(names: seq<string>, reg: ModbusInv.RegRef, count: int): (c: seq<DevCall>)
    ensures |c| == |names| && forall i :: 0 <= i < |names| ==> c[i] == ReadRegs(names[i], reg, count)
  {
    seq(|names|, i requires 0 <= i < |names| => ReadRegs(names[i], reg, count))
  }

  /** A DC/AC driver call returns True unless it raises `fault`. */
  function DeviceResult(fault: Option<Exc>): Result<bool, Exc> {
    match fault
    case None => Ok(true)
    case Some(e) => Err(e)
  }

  /** What `configure_itech_solar` returns: the identification string and
      the function and solar modes the source reports back. */
  datatype ItechReply = ItechReply(idn: string, funcMode: string, solarMode: string)

  /** The exception that opening the VISA resources raises, if any: each
      DC address in map order, then the AC address when it is truthy.
      `dcOpen(addr)` and `acOpen` say whether opening that resource raises. */
  function OpenFailure(dcMap: seq<(string, string)>, acAddr: Option<string>,
                       dcOpen: string -> Option<Exc>, acOpen: Option<Exc>): (e: Option<Exc>)
    ensures e.None? <==> (forall i :: 0 <= i < |dcMap| ==> dcOpen(dcMap[i].1).None?)
                         && (Truthy(acAddr) ==> acOpen.None?)
    ensures forall i :: 0 <= i < |dcMap| && dcOpen(dcMap[i].1).Some?
                        && (forall j :: 0 <= j < i ==> dcOpen(dcMap[j].1).None?)
                        ==> e == dcOpen(dcMap[i].1)
    ensures (forall i :: 0 <= i < |dcMap| ==> dcOpen(dcMap[i].1).None?) ==>
              e == (if Truthy(acAddr) then acOpen else None)
  {
    if dcMap == [] then (if Truthy(acAddr) then acOpen else None)
    else if dcOpen(dcMap[0].1).Some? then dcOpen(dcMap[0].1)
    else
      var e := OpenFailure(dcMap[1..], acAddr, dcOpen, acOpen);
      assert forall i :: 1 <= i < |dcMap| ==> dcMap[i] == dcMap[1..][i - 1];
      e
  }

  // ---------------------------------------------------------------------
  // The facade
  // ---------------------------------------------------------------------

  class Instruments {
    /** DC sources by name (value: VISA address). */
    var dc: Dict<string>
    /** The AC source's VISA address, when there is one. */
    var ac: Option<string>
    var inverters: Dict<InverterNode>
    /** Device calls made so far, in order. */
    var calls: seq<DevCall>

    ghost predicate Valid()
      reads this
    {
      dc.Valid() && inverters.Valid() && RolesOk(inverters)
    }

    /** `Instruments(dc_map, ac_addr, inv_cfgs, protocol)`: records whose
        construction raises are skipped. */
    constructor (dcMap: seq<(string, string)>, acAddr: Option<string>, cfgs: seq<InvCfg>,
                 protocol: Option<string>, driverOk: nat -> bool)
      ensures Valid()
      ensures dc == FromPairs(dcMap)
      ensures ac == (if Truthy(acAddr) then acAddr else None)
      ensures inverters == Build(cfgs, protocol, driverOk)
      ensures calls == []
    {
      var d := BuildInverters(cfgs, protocol, driverOk);
      inverters := d;
      dc := FromPairs(dcMap);
      ac := if Truthy(acAddr) then acAddr else None;
      calls := [];
    }

    /** The loop of `__init__` over the configuration records: a record
        whose construction raises is skipped, a later one under the same
        name replaces an earlier one. */
    static method BuildInverters(cfgs: seq<InvCfg>, protocol: Option<string>, driverOk: nat -> bool)
      returns (d: Dict<InverterNode>)
      ensures d == Build(cfgs, protocol, driverOk)
    {
      d := EmptyDict();
      var i := 0;
      while i < |cfgs|
        invariant 0 <= i <= |cfgs|
        invariant d == Build(cfgs[..i], protocol, driverOk)
      {
        var node := NodeFor(cfgs[i], i + 1, protocol, driverOk(i + 1));
        assert cfgs[..i + 1][..i] == cfgs[..i];
        if node.Ok? {
          d := d.Put(node.value.name, node.value);
        }
        i := i + 1;
      }
      assert cfgs[..|cfgs|] == cfgs;
    }

    /** The constructor as a call that can raise: the DC and AC sources
        are opened before any inverter is built, and the first resource
        that fails to open ends the construction with its exception. */
    static method Open(dcMap: seq<(string, string)>, acAddr: Option<string>, cfgs: seq<InvCfg>,
                       protocol: Option<string>, driverOk: nat -> bool,
                       dcOpen: string -> Option<Exc>, acOpen: Option<Exc>)
      returns (r: Result<Instruments, Exc>)
      ensures r.Err? <==> OpenFailure(dcMap, acAddr, dcOpen, acOpen).Some?
      ensures r.Err? ==> r.error == OpenFailure(dcMap, acAddr, dcOpen, acOpen).value
      ensures r.Ok? ==> fresh(r.value) && r.value.Valid()
                        && r.value.dc == FromPairs(dcMap)
                        && r.value.ac == (if Truthy(acAddr) then acAddr else None)
                        && r.value.inverters == Build(cfgs, protocol, driverOk)
                        && r.value.calls == []
    {
      var e := OpenFailure(dcMap, acAddr, dcOpen, acOpen);
      if e.Some? {
        return Err(e.value);
      }
      var ins := new Instruments(dcMap, acAddr, cfgs, protocol, driverOk);
      r := Ok(ins);
    }

    /** `inv_names(role)` */
    function InvNames(role: Option<string>): (r: seq<string>)
      reads this
      requires Valid()
      ensures Lists.Distinct(r)
    {
      NamesWithRole(inverters, role)
    }

    /** `dc_set_iv(name, voc, isc, ff)`: an unknown channel gives False
        and touches no source. */
    method DcSetIv(name: string, voc: real, isc: real, ff: real, fault: Option<Exc>) returns (r: Result<bool, Exc>)
      modifies this
      ensures dc == old(dc) && ac == old(ac) && inverters == old(inverters)
      ensures name !in dc.values ==> r == Ok(false) && calls == old(calls)
      ensures name in dc.values ==> r == DeviceResult(fault) && calls == old(calls) + [SetIv(name, voc, isc, ff)]
    {
      if name !in dc.values {
        return Ok(false);
      }
      calls := calls + [SetIv(name, voc, isc, ff)];
      r := DeviceResult(fault);
    }

    /** `dc_on(name)` */
    method DcOn(name: string, fault: Option<Exc>) returns (r: Result<bool, Exc>)
      modifies this
      ensures dc == old(dc) && ac == old(ac) && inverters == old(inverters)
      ensures name !in dc.values ==> r == Ok(false) && calls == old(calls)
      ensures name in dc.values ==> r == DeviceResult(fault) && calls == old(calls) + [TurnOn(name)]
    {
      if name !in dc.values {
        return Ok(false);
      }
      calls := calls + [TurnOn(name)];
      r := DeviceResult(fault);
    }

    /** `dc_off(name)` */
    method DcOff(name: string, fault: Option<Exc>) returns (r: Result<bool, Exc>)
      modifies this
      ensures dc == old(dc) && ac == old(ac) && inverters == old(inverters)
      ensures name !in dc.values ==> r == Ok(false) && calls == old(calls)
      ensures name in dc.values ==> r == DeviceResult(fault) && calls == old(calls) + [TurnOff(name)]
    {
      if name !in dc.values {
        return Ok(false);
      }
      calls := calls + [TurnOff(name)];
      r := DeviceResult(fault);
    }

    /** `dc_safe_quench_and_off(name, v, i)`: set a safe I-V point (the
        driver's default fill factor 0.9), then switch off; a failing
        set stops before the switch-off. */
    method DcSafeQuenchAndOff(name: string, targetV: real, targetI: real, setFault: Option<Exc>, offFault: Option<Exc>)
      returns (r: Result<bool, Exc>)
      modifies this
      ensures dc == old(dc) && ac == old(ac) && inverters == old(inverters)
      ensures name !in dc.values ==> r == Ok(false) && calls == old(calls)
      ensures name in dc.values && setFault.Some? ==>
                r == Err(setFault.value) && calls == old(calls) + [SetIv(name, targetV, targetI, 0.9)]
      ensures name in dc.values && setFault.None? ==>
                r == DeviceResult(offFault) && calls == old(calls) + [SetIv(name, targetV, targetI, 0.9), TurnOff(name)]
    {
      if name !in dc.values {
        return Ok(false);
      }
      calls := calls + [SetIv(name, targetV, targetI, 0.9)];
      if setFault.Some? {
        return Err(setFault.value);
      }
      calls := calls + [TurnOff(name)];
      r := DeviceResult(offFault);
    }

    /** `dc_config_itech(name, mode)`: indexes the dictionary, so an
        unknown channel raises `KeyError`; a known one returns what the
        source's configuration returns (`reply`) or raises. */
    method DcConfigItech(name: string, mode: string, reply: Result<ItechReply, Exc>)
      returns (r: Result<ItechReply, Exc>)
      modifies this
      ensures dc == old(dc) && ac == old(ac) && inverters == old(inverters)
      ensures name !in dc.values ==> r == Err(KeyError) && calls == old(calls)
      ensures name in dc.values ==> r == reply && calls == old(calls) + [ConfigureSolar(name, mode)]
    {
      if name !in dc.values {
        return Err(KeyError);
      }
      calls := calls + [ConfigureSolar(name, mode)];
      r := reply;
    }

    /** `ac_set(vrms, freq, phases)`: None without an AC source. */
    method AcSet(vrms: real, freq: real, phases: string, fault: Option<Exc>) returns (r: Result<Option<bool>, Exc>)
      modifies this
      ensures dc == old(dc) && ac == old(ac) && inverters == old(inverters)
      ensures ac.None? ==> r == Ok(None) && calls == old(calls)
      ensures ac.Some? ==> calls == old(calls) + [ConfigureAc(vrms, freq, phases)]
                           && r == (if fault.Some? then Err(fault.value) else Ok(Some(true)))
    {
      if ac.None? {
        return Ok(None);
      }
      calls := calls + [ConfigureAc(vrms, freq, phases)];
      r := if fault.Some? then Err(fault.value) else Ok(Some(true));
    }

    /** `ac_on()`: None without an AC source. */
    method AcOn(fault: Option<Exc>) returns (r: Result<Option<bool>, Exc>)
      modifies this
      ensures dc == old(dc) && ac == old(ac) && inverters == old(inverters)
      ensures ac.None? ==> r == Ok(None) && calls == old(calls)
      ensures ac.Some? ==> calls == old(calls) + [AcTurnOn]
                           && r == (if fault.Some? then Err(fault.value) else Ok(Some(true)))
    {
      if ac.None? {
        return Ok(None);
      }
      calls := calls + [AcTurnOn];
      r := if fault.Some? then Err(fault.value) else Ok(Some(true));
    }

    /** `ac_off()`: None without an AC source. */
    method AcOff(fault: Option<Exc>) returns (r: Result<Option<bool>, Exc>)
      modifies this
      ensures dc == old(dc) && ac == old(ac) && inverters == old(inverters)
      ensures ac.None? ==> r == Ok(None) && calls == old(calls)
      ensures ac.Some? ==> calls == old(calls) + [AcTurnOff]
                           && r == (if fault.Some? then Err(fault.value) else Ok(Some(true)))
    {
      if ac.None? {
        return Ok(None);
      }
      calls := calls + [AcTurnOff];
      r := if fault.Some? then Err(fault.value) else Ok(Some(true));
    }

    /** `inv_read(name, reg, count)`: an unknown inverter raises `KeyError`. */
    method InvRead(name: string, reg: ModbusInv.RegRef, count: int, reply: Result<Option<seq<int>>, Exc>)
      returns (r: Result<Option<seq<int>>, Exc>)
      modifies this
      ensures dc == old(dc) && ac == old(ac) && inverters == old(inverters)
      ensures name !in inverters.values ==> r == Err(KeyError) && calls == old(calls)
      ensures name in inverters.values ==> r == reply && calls == old(calls) + [ReadRegs(name, reg, count)]
    {
      if name !in inverters.values {
        return Err(KeyError);
      }
      calls := calls + [ReadRegs(name, reg, count)];
      r := reply;
    }

    /** `inv_write(name, reg, values, scale)`: an unknown inverter raises
        `KeyError`. */
    method InvWrite(name: string, reg: ModbusInv.RegRef, values: ModbusInv.WriteArg, scale: int,
                       reply: Result<bool, Exc>)
      returns (r: Result<bool, Exc>)
      modifies this
      ensures dc == old(dc) && ac == old(ac) && inverters == old(inverters)
      ensures name !in inverters.values ==> r == Err(KeyError) && calls == old(calls)
      ensures name in inverters.values ==> r == reply && calls == old(calls) + [WriteRegs(name, reg, values, scale)]
    {
      if name !in inverters.values {
        return Err(KeyError);
      }
      calls := calls + [WriteRegs(name, reg, values, scale)];
      r := reply;
    }

    /** `inv_broadcast_write(reg, values, scale, role)`: write through
        every driver of `inv_names(role)` in order; the result maps each
        name to its driver's result, and a raising driver aborts. */
    method InvBroadcastWrite(reg: ModbusInv.RegRef, values: ModbusInv.WriteArg, scale: int, role: Option<string>,
                             reply: string -> Result<bool, Exc>)
      returns (r: Result<seq<(string, bool)>, Exc>)
      requires Valid()
      modifies this
      ensures Valid() && dc == old(dc) && ac == old(ac) && inverters == old(inverters)
      ensures r == Broadcast(InvNames(role), reply)
      ensures calls == old(calls) + WriteCalls(InvNames(role)[..Called(InvNames(role), reply)], reg, values, scale)
    {
      var names := InvNames(role);
      var called;
      r, called := CallEach(names, reply);
      calls := calls + WriteCalls(names[..called], reg, values, scale);
    }

    /** `inv_broadcast_read(reg, count, role)`: read through every driver
        of `inv_names(role)` in order; a raising driver aborts. */
    method InvBroadcastRead(reg: ModbusInv.RegRef, count: int, role: Option<string>,
                            reply: string -> Result<Option<seq<int>>, Exc>)
      returns (r: Result<seq<(string, Option<seq<int>>)>, Exc>)
      requires Valid()
      modifies this
      ensures Valid() && dc == old(dc) && ac == old(ac) && inverters == old(inverters)
      ensures r == Broadcast(InvNames(role), reply)
      ensures calls == old(calls) + ReadCalls(InvNames(role)[..Called(InvNames(role), reply)], reg, count)
    {
      var names := InvNames(role);
      var called;
      r, called := CallEach(names, reply);
      calls := calls + ReadCalls(names[..called], reg, count);
    }

    /** `inv_disconnect_all()`: close every inverter driver, in dictionary
        order; DC and AC sources are not touched. */
    method InvDisconnectAll()
      modifies this
      ensures dc == old(dc) && ac == old(ac) && inverters == old(inverters)
      ensures calls == old(calls) + CloseInvs(inverters.keys)
    {
      var names := inverters.keys;
      var i := 0;
      while i < |names|
        invariant 0 <= i <= |names|
        invariant inverters == old(inverters) && dc == old(dc) && ac == old(ac)
        invariant calls == old(calls) + CloseInvs(names[..i])
      {
        assert CloseInvs(names[..i + 1]) == CloseInvs(names[..i]) + [CloseInv(names[i])];
        calls := calls + [CloseInv(names[i])];
        i := i + 1;
      }
      assert names[..|names|] == names;
    }

    /** `close_all()`: close every DC source, then the AC source if there
        is one, then every inverter; every error is swallowed. */
    method CloseAll()
      modifies this
      ensures dc == old(dc) && ac == old(ac) && inverters == old(inverters)
      ensures calls == old(calls) + CloseDcs(dc.keys) + (if ac.Some? then [CloseAc] else [])
                       + CloseInvs(inverters.keys)
    {
      var names := dc.keys;
      var i := 0;
      while i < |names|
        invariant 0 <= i <= |names|
        invariant inverters == old(inverters) && dc == old(dc) && ac == old(ac)
        invariant calls == old(calls) + CloseDcs(names[..i])
      {
        assert CloseDcs(names[..i + 1]) == CloseDcs(names[..i]) + [CloseDc(names[i])];
        calls := calls + [CloseDc(names[i])];
        i := i + 1;
      }
      assert names[..|names|] == names;
      if ac.Some? {
        calls := calls + [CloseAc];
      }
      InvDisconnectAll();
    }
  }

  /** The dictionary comprehension of a broadcast: call each driver in
      order, stop at the first that raises. */
  method CallEach<R>(names: seq<string>, reply: string -> Result<R, Exc>)
    returns (r: Result<seq<(string, R)>, Exc>, called: nat)
    ensures r == Broadcast(names, reply)
    ensures called == Called(names, reply)
  {
    var acc: seq<(string, R)> := [];
    var i := 0;
    while i < |names|
      invariant 0 <= i <= |names|
      invariant forall j :: 0 <= j < i ==> reply(names[j]).Ok?
      invariant |acc| == i && forall j :: 0 <= j < i ==> acc[j] == (names[j], reply(names[j]).value)
    {
      if reply(names[i]).Err? {
        BroadcastAbort(names, reply, i);
        return Err(reply(names[i]).error), i + 1;
      }
      acc := acc + [(names[i], reply(names[i]).value)];
      i := i + 1;
    }
    BroadcastAll(names, reply);
    assert acc == Broadcast(names, reply).value;
    r, called := Ok(acc), |names|;
  }

  /** A broadcast whose i-th driver is the first to raise fails with that
      exception after calling i + 1 drivers. */
  lemma BroadcastAbort<R>(names: seq<string>, reply: string -> Result<R, Exc>, i: nat)
    requires i < |names| && reply(names[i]).Err?
    requires forall j :: 0 <= j < i ==> reply(names[j]).Ok?
    ensures Broadcast(names, reply) == Err(reply(names[i]).error)
    ensures Called(names, reply) == i + 1
  {
    if i > 0 {
      BroadcastAbort(names[1..], reply, i - 1);
    }
  }

  lemma BroadcastAll<R>(names: seq<string>, reply: string -> Result<R, Exc>)
    requires forall j :: 0 <= j < |names| ==> reply(names[j]).Ok?
    ensures Called(names, reply) == |names|
  {
    if names != [] {
      BroadcastAll(names[1..], reply);
    }
  }
}
