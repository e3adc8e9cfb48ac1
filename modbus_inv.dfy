/** The Modbus inverter driver (drivers/modbus_inv.py): connection
    profiles, the bounded retry loop, register address parsing, value
    scaling, and the read / write / close operations on one client.

    The transport is an oracle: the outcome of the i-th attempt of an
    operation is `outcome(i)`, and whether `connect()` succeeds is a
    boolean input.  Every request that reaches the bus is recorded in the
    driver's `trace`.  Sleeps and the lock are no-ops. */
module ModbusInv {
  import opened Wrappers
  import opened Exceptions
  import Text
  import Lists

  // ---------------------------------------------------------------------
  // Connection profiles (Inverter.__init__)
  // ---------------------------------------------------------------------

  const TcpDefaultPort: int := 8899
  const HubDefaultPort: int := 55400
  const RtuBaudrate: int := 9600
  const RtuByteSize: int := 8
  const RtuParity: char := 'N'
  const RtuStopBits: int := 1

  /** A pymodbus client as configured (host/port or serial line). */
  datatype Client =
    | TcpClient(host: Option<string>, port: int, timeout: real)
    | SerialClient(com: Option<string>, baudrate: int, bytesize: int, parity: char, stopbits: int, timeout: real)

  predicate SupportedProto(proto: string) {
    proto == "TCP" || proto == "AzzurroHUB" || proto == "RTU"
  }

  /** `port or default`: an absent port and port 0 both take the default. */
  function PortOr(port: Option<int>, default: int): int {
    if port.Some? && port.value != 0 then port.value else default
  }

  /** The client `Inverter.__init__` builds for a protocol name; any other
      name raises `ValueError`. */
  function ClientFor(proto: string, ip: Option<string>, port: Option<int>, com: Option<string>, timeout: real)
    : (r: Result<Client, Exc>)
    ensures r.Err? <==> !SupportedProto(proto)
    ensures r.Err? ==> r.error == ValueError
    ensures r.Ok? ==> (r.value.TcpClient? <==> proto != "RTU")
    ensures r.Ok? ==> r.value.timeout == timeout
  {
    if proto == "TCP" then Ok(TcpClient(ip, PortOr(port, TcpDefaultPort), timeout))
    else if proto == "AzzurroHUB" then Ok(TcpClient(ip, PortOr(port, HubDefaultPort), timeout))
    else if proto == "RTU" then
      Ok(SerialClient(com, RtuBaudrate, RtuByteSize, RtuParity, RtuStopBits, timeout))
    else Err(ValueError)
  }

  /** Without a port, TCP talks to 8899 and AzzurroHUB to 55400; a given
      port is kept; RTU is 9600 baud 8N1 on the named serial port. */
  lemma ProfileDefaults(ip: Option<string>, port: int, com: Option<string>, t: real)
    ensures ClientFor("TCP", ip, None, com, t).value.port == 8899
    ensures ClientFor("AzzurroHUB", ip, None, com, t).value.port == 55400
    ensures port != 0 ==> ClientFor("TCP", ip, Some(port), com, t).value.port == port
    ensures port != 0 ==> ClientFor("AzzurroHUB", ip, Some(port), com, t).value.port == port
    ensures ClientFor("RTU", ip, Some(port), com, t)
            == Ok(SerialClient(com, 9600, 8, 'N', 1, t))
  {
  }

  // ---------------------------------------------------------------------
  // Register addresses and value scaling
  // ---------------------------------------------------------------------

  /** A register as given by the caller: an int, or text in base 16. */
  datatype RegRef = RegNum(n: int) | RegText(s: string)

  /** `int(reg, 16) if isinstance(reg, str) else int(reg)` */
  function ParseRegister(reg: RegRef): (r: Result<int, Exc>)
    ensures reg.RegNum? ==> r == Ok(reg.n)
    ensures reg.RegText? ==> (r.Ok? <==> Text.ParseIntBase16(reg.s).Some?)
    ensures reg.RegText? && r.Ok? ==> r.value == Text.ParseIntBase16(reg.s).value
    ensures r.Err? ==> r.error == ValueError
  {
    match reg
    case RegNum(n) => Ok(n)
    case RegText(s) =>
      match Text.ParseIntBase16(s)
      case Some(a) => Ok(a)
      case None => Err(ValueError)
  }

  /** Register text written as in the configuration tables ("0x0404",
      or bare digits "0404") parses to the register it names. */
  lemma ParseRegisterText(a: nat)
    requires a < 0x1_0000
    ensures ParseRegister(RegText("0x" + Text.HexFixed(a, 4))) == Ok(a)
    ensures ParseRegister(RegText(Text.HexFixed(a, 4))) == Ok(a)
  {
    assert Text.Pow16(4) == 0x1_0000;
    Text.ParsePrefixedHexFixed(a, 4);
    Text.ParseHexFixed(a, 4);
  }

  function Abs(x: int): nat {
    if x < 0 then -x else x
  }

  /** `int(v / s)` for ints: true division truncated toward zero. */
  function TruncDiv(v: int, s: int): (q: int)
    requires s != 0
    ensures Abs(q) == Abs(v) / Abs(s)
    ensures q > 0 ==> (v > 0 <==> s > 0)
    ensures q < 0 ==> (v > 0 <==> s < 0)
  {
    var a: int, b: int := Abs(v), Abs(s);
    var m := a / b;
    assert m > 0 ==> a > 0 by {
      if a == 0 { assert m == 0; }
    }
    if (v < 0) == (s < 0) then m else -m
  }

  /** Truncation never overshoots: `q * s` lies between 0 and `v`, less
      than one step `|s|` away from `v`. */
  lemma TruncDivBounds(v: int, s: int)
    requires s != 0
    ensures var q := TruncDiv(v, s);
            Abs(q * s) <= Abs(v) && Abs(v - q * s) < Abs(s)
            && (v >= 0 ==> q * s >= 0) && (v <= 0 ==> q * s <= 0)
  {
    var q := TruncDiv(v, s);
    var a: int, b: int := Abs(v), Abs(s);
    AbsMul(q, s);
    if q != 0 {
      SignOfProduct(q, s);
    }
    MulNonNeg(a / b, b);
    ProductBounds(v, s, q * s, (a / b) * b, a % b);
  }

  /** The linear half of `TruncDivBounds`, for the product `p` of
      absolute value `mb`. */
  lemma ProductBounds(v: int, s: int, p: int, mb: int, r: int)
    requires s != 0 && Abs(v) == mb + r && 0 <= r < Abs(s) && mb >= 0
    requires Abs(p) == mb && (p > 0 ==> v > 0) && (p < 0 ==> v < 0)
    ensures Abs(p) <= Abs(v) && Abs(v - p) < Abs(s) && (v >= 0 ==> p >= 0) && (v <= 0 ==> p <= 0)
  {
  }

  lemma MulNonNeg(x: int, y: int)
    requires x >= 0 && y >= 0
    ensures x * y >= 0
  {
  }

  /** Dividing a multiple of the scale is exact. */
  lemma TruncDivExact(x: int, s: int)
    requires s != 0
    ensures TruncDiv(x * s, s) == x
  {
    var v := x * s;
    AbsMul(x, s);
    Text.DivModUnique(Abs(v), Abs(s), Abs(x), 0);
    if x > 0 {
      assert (v < 0) == (s < 0) by { SignOfProduct(x, s); }
    } else if x < 0 {
      assert (v < 0) != (s < 0) by { SignOfProduct(x, s); }
    }
  }

  lemma AbsMul(x: int, s: int)
    ensures Abs(x * s) == Abs(x) * Abs(s)
  {
    if x < 0 && s < 0 {
      assert x * s == (-x) * (-s);
    } else if x < 0 {
      assert x * s == -((-x) * s);
    } else if s < 0 {
      assert x * s == -(x * (-s));
    }
  }

  lemma SignOfProduct(x: int, s: int)
    requires x != 0 && s != 0
    ensures x * s < 0 <==> (x < 0) != (s < 0)
  {
    if x < 0 && s < 0 {
      assert x * s == (-x) * (-s);
    } else if x < 0 {
      assert x * s == -((-x) * s);
    } else if s < 0 {
      assert x * s == -(x * (-s));
    }
  }

  /** `[int(v / scale) for v in vs]`: the list comprehension divides
      every value; only a non-empty list can hit a zero scale. */
  function ScaleValues(vs: seq<int>, scale: int): (r: Result<seq<int>, Exc>)
    ensures r.Err? <==> (scale == 0 && vs != [])
    ensures r.Err? ==> r.error == ZeroDivisionError
    ensures r.Ok? ==> |r.value| == |vs|
    ensures r.Ok? ==> forall i :: 0 <= i < |vs| ==> r.value[i] == TruncDiv(vs[i], scale)
  {
    if vs == [] then Ok([])
    else if scale == 0 then Err(ZeroDivisionError)
    else Ok(seq(|vs|, i requires 0 <= i < |vs| => TruncDiv(vs[i], scale)))
  }

  /** Scale 1 writes the values unchanged, and any non-zero scale gives
      back values that were multiplied by it. */
  lemma ScaleValuesInverse(xs: seq<int>, s: int)
    requires s != 0
    ensures ScaleValues(xs, 1) == Ok(xs)
    ensures ScaleValues(seq(|xs|, i requires 0 <= i < |xs| => xs[i] * s), s) == Ok(xs)
  {
    var ys := seq(|xs|, i requires 0 <= i < |xs| => xs[i] * s);
    forall i | 0 <= i < |xs| ensures TruncDiv(xs[i], 1) == xs[i] && TruncDiv(ys[i], s) == xs[i] {
      TruncDivExact(xs[i], 1);
      TruncDivExact(xs[i], s);
    }
    assert ScaleValues(xs, 1).value == xs;
    assert ScaleValues(ys, s).value == xs;
  }

  // ---------------------------------------------------------------------
  // The retry loop (Inverter._retry)
  // ---------------------------------------------------------------------

  /** What one call of the retried operation did: returned a truthy,
      non-ModbusIOException value; returned something falsy or a
      ModbusIOException; or raised. */
  datatype Attempt<+T> = Returned(value: T) | Falsy | Raised(error: Exc)

  const DefaultAttempts: int := 3

  /** `range(attempts)` has no elements for a negative count. */
  function Tries(attempts: int): nat {
    if attempts < 0 then 0 else attempts
  }

  /** The first attempt in [i, n) that returned a value. */
  function FirstReturned<T>(op: nat -> Attempt<T>, i: nat, n: nat): (r: Option<nat>)
    ensures r.Some? ==> i <= r.value < n && op(r.value).Returned?
    ensures r.Some? ==> forall j :: i <= j < r.value ==> !op(j).Returned?
    ensures r.None? ==> forall j :: i <= j < n ==> !op(j).Returned?
    decreases n - i
  {
    if i >= n then None
    else if op(i).Returned? then Some(i)
    else FirstReturned(op, i + 1, n)
  }

  /** The exception raised by the latest of the first n attempts. */
  function LastRaised<T>(op: nat -> Attempt<T>, n: nat): (r: Option<Exc>)
    ensures r.Some? ==> exists k :: 0 <= k < n && op(k) == Raised(r.value)
                                   && forall j :: k < j < n ==> !op(j).Raised?
    ensures r.None? ==> forall j :: 0 <= j < n ==> !op(j).Raised?
  {
    if n == 0 then None
    else if op(n - 1).Raised? then Some(op(n - 1).error)
    else LastRaised(op, n - 1)
  }

  /** What `_retry(fn, attempts)` returns or raises. */
  function RetryOutcome<T>(op: nat -> Attempt<T>, attempts: int): Result<T, Exc> {
    match FirstReturned(op, 0, Tries(attempts))
    case Some(k) => Ok(op(k).value)
    case None => Err(LastRaised(op, Tries(attempts)).GetOr(IOError))
  }

  /** How many times `_retry(fn, attempts)` calls `fn`. */
  function RetryCalls<T>(op: nat -> Attempt<T>, attempts: int): nat {
    match FirstReturned(op, 0, Tries(attempts))
    case Some(k) => k + 1
    case None => Tries(attempts)
  }

  /** `_retry`: call the operation up to `attempts` times, return the
      first good value, else raise the last exception caught (`IOError`
      when none was). */
  method Retry<T>(op: nat -> Attempt<T>, attempts: int) returns (r: Result<T, Exc>, calls: nat)
    ensures calls <= Tries(attempts)
    ensures calls == RetryCalls(op, attempts)
    ensures r == RetryOutcome(op, attempts)
  {
    var n := Tries(attempts);
    var last: Option<Exc> := None;
    var i := 0;
    while i < n
      invariant 0 <= i <= n
      invariant FirstReturned(op, 0, n) == FirstReturned(op, i, n)
      invariant last == LastRaised(op, i)
    {
      match op(i) {
        case Returned(v) =>
          r, calls := Ok(v), i + 1;
          return;
        case Falsy =>
        case Raised(e) =>
          last := Some(e);
      }
      i := i + 1;
    }
    calls := n;
    match last
    case Some(e) => r := Err(e);
    case None => r := Err(IOError);
  }

  /** The first good attempt is returned and no later attempt is made. */
  lemma RetryStopsAtFirstGood<T>(op: nat -> Attempt<T>, attempts: int, k: nat)
    requires k < attempts && op(k).Returned?
    requires forall j :: 0 <= j < k ==> !op(j).Returned?
    ensures RetryOutcome(op, attempts) == Ok(op(k).value)
    ensures RetryCalls(op, attempts) == k + 1
  {
    var f := FirstReturned(op, 0, Tries(attempts));
    assert f.Some?;
    assert f.value == k;
  }

  /** After the last attempt fails, the latest exception is re-raised even
      when that last attempt merely returned something falsy. */
  lemma RetryRaisesLatest<T>(op: nat -> Attempt<T>, attempts: int, k: nat, e: Exc)
    requires k < attempts && op(k) == Raised(e)
    requires forall j :: 0 <= j < attempts ==> !op(j).Returned?
    requires forall j :: k < j < attempts ==> op(j) == Falsy
    ensures RetryOutcome(op, attempts) == Err(e)
    ensures RetryCalls(op, attempts) == attempts
  {
    var l := LastRaised(op, attempts);
    assert op(k).Raised?;
    assert l.Some?;
    var k' :| 0 <= k' < attempts && op(k') == Raised(l.value)
              && forall j :: k' < j < attempts ==> !op(j).Raised?;
    assert k' == k;
  }

  /** Nothing returned and nothing raised: `IOError`. */
  lemma RetryIOErrorWhenNothingRaised<T>(op: nat -> Attempt<T>, attempts: int)
    requires forall j :: 0 <= j < attempts ==> op(j) == Falsy
    ensures RetryOutcome(op, attempts) == Err(IOError)
    ensures RetryCalls(op, attempts) == Tries(attempts)
  {
  }

  // ---------------------------------------------------------------------
  // The driver object
  // ---------------------------------------------------------------------

  /** One request on the bus (Modbus Application Protocol V1.1b3, section
      6.3 Read Holding Registers and section 6.12 Write Multiple
      Registers), or a connect / close of the client. */
  datatype BusOp =
    | Connect
    | ReadHolding(address: int, count: int, unit: int)
    | WriteMultiple(address: int, values: seq<int>, unit: int)
    | Disconnect

  /** A reply to a read request: a register list, or a response without
      one (an exception response). */
  datatype ReadReply = Registers(regs: seq<int>) | NoRegisters

  /** What `write` was given: one value, or a list of values. */
  datatype WriteArg = Scalar(v: int) | Values(vs: seq<int>)

  /** `rr.registers if hasattr(rr, 'registers') else None` */
  function RegistersOf(reply: ReadReply): Option<seq<int>> {
    match reply
    case Registers(regs) => Some(regs)
    case NoRegisters => None
  }

  class Inverter {
    const proto: string
    const client: Client
    const slave: int
    /** Every request this driver put on the bus, in order. */
    var trace: seq<BusOp>

    constructor (proto: string, client: Client, slave: int)
      ensures this.proto == proto && this.client == client && this.slave == slave
      ensures trace == [Connect]
    {
      this.proto := proto;
      this.client := client;
      this.slave := slave;
      trace := [Connect];
    }

    /** `Inverter(proto, ip, port, com, slave, timeout)`: pick the client
        for the protocol (`ValueError` for an unknown one), then try one
        connect whose failure is only logged.  The serial preflight only
        logs, so it leaves no trace here. */
    static method Open(proto: string, ip: Option<string>, port: Option<int>, com: Option<string>,
                       slave: int, timeout: real)
      returns (r: Result<Inverter, Exc>)
      ensures r.Err? <==> !SupportedProto(proto)
      ensures r.Err? ==> r.error == ValueError
      ensures r.Ok? ==> fresh(r.value) && r.value.proto == proto && r.value.slave == slave
                        && r.value.client == ClientFor(proto, ip, port, com, timeout).value
                        && r.value.trace == [Connect]
    {
      match ClientFor(proto, ip, port, com, timeout)
      case Ok(c) =>
        var inv := new Inverter(proto, c, slave);
        r := Ok(inv);
      case Err(e) =>
        r := Err(e);
    }

    /** `read(reg, count)`: parse the register, check the connection
        (one connect on the bus), then retry the read up to three times. */
    method Read(reg: RegRef, count: int, connected: bool, outcome: nat -> Attempt<ReadReply>)
      returns (r: Result<Option<seq<int>>, Exc>)
      modifies this
      ensures ParseRegister(reg).Err? ==> r == Err(ValueError) && trace == old(trace)
      ensures ParseRegister(reg).Ok? && !connected ==> r == Ok(None) && trace == old(trace) + [Connect]
      ensures ParseRegister(reg).Ok? && connected ==>
                trace == old(trace) + [Connect]
                         + Lists.Repeat(ReadHolding(ParseRegister(reg).value, count, slave),
                                        RetryCalls(outcome, DefaultAttempts))
                && r == match RetryOutcome(outcome, DefaultAttempts)
                        case Ok(reply) => Ok(RegistersOf(reply))
                        case Err(e) => Err(e)
    {
      var a := ParseRegister(reg);
      if a.Err? {
        return Err(a.error);
      }
      trace := trace + [Connect];
      if !connected {
        return Ok(None);
      }
      var res, calls := Retry(outcome, DefaultAttempts);
      trace := trace + Lists.Repeat(ReadHolding(a.value, count, slave), calls);
      match res
      case Ok(reply) => r := Ok(RegistersOf(reply));
      case Err(e) => r := Err(e);
    }

    /** `write(reg, values, scale)`: parse the register, check the
        connection, scale the values, then retry one Write Multiple
        Registers request up to three times.  A list is scaled before the
        retry loop, a scalar inside it, so a zero scale on a scalar is
        retried and then raised without reaching the bus. */
    method Write(reg: RegRef, values: WriteArg, scale: int, connected: bool, outcome: nat -> Attempt<()>)
      returns (r: Result<bool, Exc>)
      modifies this
      ensures ParseRegister(reg).Err? ==> r == Err(ValueError) && trace == old(trace)
      ensures ParseRegister(reg).Ok? && !connected ==> r == Ok(false) && trace == old(trace) + [Connect]
      ensures ParseRegister(reg).Ok? && connected && scale == 0 ==>
                r == (if values == Values([]) then WriteResult(outcome) else Err(ZeroDivisionError))
      ensures ParseRegister(reg).Ok? && connected && scale == 0 && values != Values([]) ==>
                trace == old(trace) + [Connect]
      ensures ParseRegister(reg).Ok? && connected && (scale != 0 || values == Values([])) ==>
                var words := Words(values, scale);
                r == WriteResult(outcome)
                && trace == old(trace) + [Connect]
                            + Lists.Repeat(WriteMultiple(ParseRegister(reg).value, words, slave),
                                           RetryCalls(outcome, DefaultAttempts))
    {
      var a := ParseRegister(reg);
      if a.Err? {
        return Err(a.error);
      }
      trace := trace + [Connect];
      if !connected {
        return Ok(false);
      }
      match values
      case Values(vs) =>
        var scaled := ScaleValues(vs, scale);
        if scaled.Err? {
          return Err(scaled.error);
        }
        var res, calls := Retry(outcome, DefaultAttempts);
        trace := trace + Lists.Repeat(WriteMultiple(a.value, scaled.value, slave), calls);
        r := if res.Ok? then Ok(true) else Err(res.error);
      case Scalar(v) =>
        if scale == 0 {
          var failing: nat -> Attempt<()> := _ => Raised(ZeroDivisionError);
          var res, calls := Retry(failing, DefaultAttempts);
          assert res == Err(ZeroDivisionError) by {
            RetryRaisesLatest(failing, DefaultAttempts, 2, ZeroDivisionError);
          }
          r := Err(res.error);
        } else {
          var res, calls := Retry(outcome, DefaultAttempts);
          trace := trace + Lists.Repeat(WriteMultiple(a.value, [TruncDiv(v, scale)], slave), calls);
          r := if res.Ok? then Ok(true) else Err(res.error);
        }
    }

    /** `close()`: close the client; errors are swallowed. */
    method Close()
      modifies this
      ensures trace == old(trace) + [Disconnect]
    {
      trace := trace + [Disconnect];
    }
  }

  /** The words `write` sends: the scaled list, or the one scaled scalar. */
  function Words(values: WriteArg, scale: int): (w: seq<int>)
    requires scale != 0 || values == Values([])
    ensures values.Scalar? ==> w == [TruncDiv(values.v, scale)]
    ensures values.Values? ==> |w| == |values.vs| && ScaleValues(values.vs, scale) == Ok(w)
  {
    match values
    case Scalar(v) => [TruncDiv(v, scale)]
    case Values(vs) => ScaleValues(vs, scale).value
  }

  /** `write` returns True once the retry succeeded and re-raises its
      failure otherwise. */
  function WriteResult(outcome: nat -> Attempt<()>): (r: Result<bool, Exc>)
    ensures r.Ok? ==> r.value
    ensures r.Ok? <==> RetryOutcome(outcome, DefaultAttempts).Ok?
    ensures r.Err? ==> RetryOutcome(outcome, DefaultAttempts) == Err(r.error)
  {
    match RetryOutcome(outcome, DefaultAttempts)
    case Ok(_) => Ok(true)
    case Err(e) => Err(e)
  }
}
