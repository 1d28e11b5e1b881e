/** The MAX7311 driver: shadow registers, written through to the device over a bus whose transfers may fail. */
module Max7311Driver {
  import opened Bytes
  import opened Max7311Chip
  import opened Bits

  /** A register pair as the two bytes that go over the bus. */
  datatype Pair = Pair(b0: bv8, b1: bv8) {
    function Get(k: nat): bv8
      requires k < 2
    {
      if k == 0 then b0 else b1
    }

    function Put(k: nat, b: bv8): Pair
      requires k < 2
    {
      if k == 0 then this.(b0 := b) else this.(b1 := b)
    }
  }

  datatype Regs = Regs(output: Pair, polarity: Pair, config: Pair)

  function PortsOf(p: Pair): Ports {
    Ports(Ones(p.b0), Ones(p.b1))
  }

  function View(r: Regs): Chip {
    Chip(PortsOf(r.output), PortsOf(r.polarity), PortsOf(r.config))
  }

  /** `p` with `n` bytes of `q` from `index` on. */
  function Splice(p: Pair, q: Pair, index: nat, n: nat): Pair
    requires index + n <= 2
  {
    Pair(if index == 0 && n > 0 then q.b0 else p.b0, if index + n == 2 && n > 0 then q.b1 else p.b1)
  }

  // ---------------------------------------------------------------------------
  // The byte operations on the bits
  // ---------------------------------------------------------------------------

  lemma PutView(p: Pair, k: nat, b: bv8)
    requires k < 2
    ensures PortsOf(p.Put(k, b)) == PortsOf(p).Put(k, Ones(b))
  {
  }

  lemma GetView(p: Pair, k: nat)
    requires k < 2
    ensures PortsOf(p).Get(k) == Ones(p.Get(k))
  {
  }

  lemma OrPut(p: Pair, k: nat, j: nat)
    requires k < 2 && j < 8
    ensures PortsOf(p.Put(k, p.Get(k) | Mask(j))) == PortsOf(p).Put(k, Ones(p.Get(k)) + {j})
  {
    OrInserts(p.Get(k), j);
    PutView(p, k, p.Get(k) | Mask(j));
  }

  lemma AndNotPut(p: Pair, k: nat, j: nat)
    requires k < 2 && j < 8
    ensures PortsOf(p.Put(k, p.Get(k) & !Mask(j))) == PortsOf(p).Put(k, Ones(p.Get(k)) - {j})
  {
    AndNotRemoves(p.Get(k), j);
    PutView(p, k, p.Get(k) & !Mask(j));
  }

  lemma XorPut(p: Pair, k: nat, j: nat)
    requires k < 2 && j < 8
    ensures PortsOf(p.Put(k, p.Get(k) ^ Mask(j))) == PortsOf(p).Put(k, Flip(Ones(p.Get(k)), j))
  {
    XorFlips(p.Get(k), j);
    PutView(p, k, p.Get(k) ^ Mask(j));
  }

  lemma OrRaises(p: Pair, i: nat)
    requires i < 16
    ensures PortsOf(p.Put(i / 8, p.Get(i / 8) | Mask(i % 8))) == PutBit(PortsOf(p), i, true)
  {
    OrPut(p, i / 8, i % 8);
    GetView(p, i / 8);
  }

  lemma AndNotLowers(p: Pair, i: nat)
    requires i < 16
    ensures PortsOf(p.Put(i / 8, p.Get(i / 8) & !Mask(i % 8))) == PutBit(PortsOf(p), i, false)
  {
    AndNotPut(p, i / 8, i % 8);
    GetView(p, i / 8);
  }

  lemma XorToggles(p: Pair, i: nat)
    requires i < 16
    ensures PortsOf(p.Put(i / 8, p.Get(i / 8) ^ Mask(i % 8))) == Toggled(PortsOf(p), i)
  {
    XorPut(p, i / 8, i % 8);
    GetView(p, i / 8);
  }

  lemma XorTogglesAll(p: Pair)
    ensures PortsOf(Pair(p.b0 ^ 0xFF, p.b1 ^ 0xFF)) == Complement(PortsOf(p))
  {
    XorComplements(p.b0);
    XorComplements(p.b1);
  }

  lemma Constants()
    ensures PortsOf(Pair(0xFF, 0xFF)) == Ports(FULL, FULL) && PortsOf(Pair(0x00, 0x00)) == Ports({}, {})
  {
    XorComplements(0);
  }

  method RaiseBit(p: Pair, i: nat) returns (p': Pair)
    requires i < 16
    ensures PortsOf(p') == PutBit(PortsOf(p), i, true) && p' == Splice(p, p', i / 8, 1)
  {
    OrRaises(p, i);
    p' := p.Put(i / 8, p.Get(i / 8) | Mask(i % 8));
  }

  method LowerBit(p: Pair, i: nat) returns (p': Pair)
    requires i < 16
    ensures PortsOf(p') == PutBit(PortsOf(p), i, false) && p' == Splice(p, p', i / 8, 1)
  {
    AndNotLowers(p, i);
    p' := p.Put(i / 8, p.Get(i / 8) & !Mask(i % 8));
  }

  method XorBitOf(p: Pair, i: nat) returns (p': Pair)
    requires i < 16
    ensures PortsOf(p') == Toggled(PortsOf(p), i) && p' == Splice(p, p', i / 8, 1)
  {
    XorToggles(p, i);
    p' := p.Put(i / 8, p.Get(i / 8) ^ Mask(i % 8));
  }

  /** A bit test on a byte reads the pin's bit. */
  method TestBit(p: Pair, i: nat) returns (on: bool)
    requires i < 16
    ensures on <==> PortBit(PortsOf(p), i)
  {
    OnesBit(p.Get(i / 8), i % 8);
    GetView(p, i / 8);
    on := p.Get(i / 8) & Mask(i % 8) != 0;
  }

  /** The direction byte that `setMode` computes for one channel. */
  method ChangeDirection(p: Pair, m: Mode, i: nat) returns (p': Pair)
    requires i < 16
    ensures PortsOf(p') == PutDirection(PortsOf(p), m, i) && p' == Splice(p, p', i / 8, 1)
  {
    if Has(m, DIGITAL_OUTPUT) {
      p' := LowerBit(p, i);
    } else if Has(m, DIGITAL_INPUT) {
      p' := RaiseBit(p, i);
    } else {
      p' := p;
    }
  }

  method PutBitOf(p: Pair, i: nat, on: bool) returns (p': Pair)
    requires i < 16
    ensures PortsOf(p') == PutBit(PortsOf(p), i, on) && p' == Splice(p, p', i / 8, 1)
  {
    if on {
      p' := RaiseBit(p, i);
    } else {
      p' := LowerBit(p, i);
    }
  }

  // ---------------------------------------------------------------------------
  // The bus
  // ---------------------------------------------------------------------------

  datatype Bank = InputBank | OutputBank | PolarityBank | ConfigBank | TimeoutBank

  /** What the driver asks of the bus: to open it, to read registers or to write them, `nb` bytes from `index` on. */
  datatype Command = Connect | Fetch(bank: Bank, index: nat, nb: nat) | Store(bank: Bank, index: nat, nb: nat)

  /** What the bus answers: whether it worked and, if it did not, how many bytes went over all the same. */
  datatype Reply = Reply(ok: bool, moved: int)

  datatype Transfer = Transfer(command: Command, ok: bool)

  function Moved(reply: Reply, nb: nat): (n: nat)
    ensures n <= nb && (reply.ok ==> n == nb)
  {
    if reply.ok || reply.moved > nb then nb else if reply.moved < 0 then 0 else reply.moved
  }

  /** `readRegister` on a register pair: the `n` bytes that arrive, arrive in the buffer, even when that is too few. */
  method Receive(held: Pair, index: nat, nb: nat, buf: Pair, reply: Reply)
    returns (ok: bool, buf': Pair, ghost n: nat)
    requires 0 < nb && index + nb <= 2
    ensures ok == reply.ok && n == Moved(reply, nb)
    ensures buf' == Splice(buf, held, index, n)
  {
    ok, n := reply.ok, Moved(reply, nb);
    buf' := Splice(buf, held, index, Moved(reply, nb));
  }

  /** `writeRegister` on a register pair: all bytes, or an error after the device has taken `n` of them. */
  method Send(held: Pair, index: nat, nb: nat, buf: Pair, reply: Reply)
    returns (ok: bool, held': Pair, ghost n: nat)
    requires 0 < nb && index + nb <= 2
    ensures ok == reply.ok && n == Moved(reply, nb)
    ensures held' == Splice(held, buf, index, n)
  {
    ok, n := reply.ok, Moved(reply, nb);
    held' := Splice(held, buf, index, Moved(reply, nb));
  }

  // ---------------------------------------------------------------------------
  // Plans
  // ---------------------------------------------------------------------------

  /**
   From record `b` to record `a` the bus was asked for the commands of `plan`, in order, up to the first that it
   answered with an error; `ok` says that there was none. The answers are those of the bus.
   */
  ghost predicate Did(replies: nat -> Reply, b: seq<Transfer>, a: seq<Transfer>, plan: seq<Command>, ok: bool) {
    && b <= a && |a| <= |b| + |plan|
    && (forall k | |b| <= k < |a| :: a[k] == Transfer(plan[k - |b|], replies(k).ok))
    && (forall k | |b| <= k < |a| - 1 :: a[k].ok)
    && (ok ==> |a| == |b| + |plan| && forall k | |b| <= k < |a| :: a[k].ok)
    && (!ok ==> |b| < |a| && !a[|a| - 1].ok)
  }

  lemma DidOne(replies: nat -> Reply, b: seq<Transfer>, c: Command)
    ensures Did(replies, b, b + [Transfer(c, replies(|b|).ok)], [c], replies(|b|).ok)
  {
  }

  lemma DidThen(replies: nat -> Reply, b: seq<Transfer>, m: seq<Transfer>, a: seq<Transfer>,
                p: seq<Command>, q: seq<Command>, ok: bool)
    requires Did(replies, b, m, p, true) && Did(replies, m, a, q, ok)
    ensures Did(replies, b, a, p + q, ok)
  {
    forall k | |b| <= k < |a| ensures a[k] == Transfer((p + q)[k - |b|], replies(k).ok) {
      if k < |m| {
        assert a[k] == m[k];
      }
    }
    forall k | |b| <= k < |a| - 1 ensures a[k].ok {
      if k < |m| {
        assert a[k] == m[k];
      }
    }
  }

  lemma DidStop(replies: nat -> Reply, b: seq<Transfer>, a: seq<Transfer>, p: seq<Command>, q: seq<Command>)
    requires Did(replies, b, a, p, false)
    ensures Did(replies, b, a, p + q, false)
  {
    forall k | |b| <= k < |a| ensures a[k] == Transfer((p + q)[k - |b|], replies(k).ok) {
    }
  }

  /** What each operation asks of the bus before it can return true. */
  function Plan(op: Op): seq<Command> {
    match op
    case Write(_) => [Store(OutputBank, 0, 2)]
    case WriteChannel(_, i) => [Store(OutputBank, i / 8, 1)]
    case Toggle(i) => [Fetch(OutputBank, i / 8, 1), Store(OutputBank, i / 8, 1)]
    case ToggleAll => [Fetch(OutputBank, 0, 2), Store(OutputBank, 0, 2)]
    case SetMode(_, i) =>
      [Fetch(PolarityBank, i / 8, 1), Fetch(ConfigBank, i / 8, 1)]
      + [Store(PolarityBank, i / 8, 1), Store(ConfigBank, i / 8, 1)]
    case SetModeAll(_) => [Store(PolarityBank, 0, 2), Store(ConfigBank, 0, 2)]
    case ReadMode(i) => [Fetch(PolarityBank, i / 8, 1), Fetch(ConfigBank, i / 8, 1)]
    case Reopen =>
      [Connect] + ([Fetch(InputBank, 0, 2)] + ([Fetch(OutputBank, 0, 2)]
      + ([Fetch(PolarityBank, 0, 2), Fetch(ConfigBank, 0, 2)] + [Fetch(TimeoutBank, 0, 1)])))
  }

  /** What `open` sends on top, whether or not it works. */
  const WRITE_BACK: seq<Command> := [Store(PolarityBank, 0, 2), Store(ConfigBank, 0, 2)]

  /** The operation went by its plan and returns true exactly when all of it worked. */
  ghost predicate DidOp(replies: nat -> Reply, b: seq<Transfer>, a: seq<Transfer>, op: Op, ok: bool) {
    if op.Reopen? && ok then
      var n := |b| + |Plan(op)|;
      && n <= |a| && Did(replies, b, a[..n], Plan(op), true)
      && (Did(replies, a[..n], a, WRITE_BACK, true) || Did(replies, a[..n], a, WRITE_BACK, false))
    else Did(replies, b, a, Plan(op), ok)
  }

  // ---------------------------------------------------------------------------
  // Transfers as requests
  // ---------------------------------------------------------------------------

  /** `Splice` on the bits. */
  function SplicePorts(p: Ports, q: Ports, index: nat, n: nat): Ports
    requires index + n <= 2
  {
    Ports(if index == 0 && n > 0 then q.port1 else p.port1, if index + n == 2 && n > 0 then q.port2 else p.port2)
  }

  lemma SpliceView(p: Pair, q: Pair, index: nat, n: nat)
    requires index + n <= 2
    ensures PortsOf(Splice(p, q, index, n)) == SplicePorts(PortsOf(p), PortsOf(q), index, n)
  {
  }

  /** Sending a port that was read back first does to the device what the operation says. */
  lemma ModeSpliced(dc: Ports, sc: Ports, dp: Ports, sp: Ports, m: Mode, i: nat)
    requires i < 16 && sc.Get(i / 8) == dc.Get(i / 8) && sp.Get(i / 8) == dp.Get(i / 8)
    ensures SplicePorts(dc, PutDirection(sc, m, i), i / 8, 1) == PutDirection(dc, m, i)
    ensures var on := Has(m, ACTIVE_LOW);
      SplicePorts(dp, PutBit(sp, i, on), i / 8, 1) == PutBit(dp, i, on)
  {
  }

  /** The fate of port `k` in a transfer of two bytes, of which `n` went through. */
  function Passed(n: nat, k: nat, through: Fate, not: Fate): Fate {
    if k < n then through else not
  }

  /** A channel written to the shadow, and `n` bytes of its port sent. */
  lemma WriteAttempt(o: Copies, on: bool, i: nat, n: nat)
    requires i < 16 && n <= 1
    ensures var shadow, fate := PutBit(o.shadow, i, on), Passed(n, 0, Sent, Unsent);
      Copies(SplicePorts(o.device, shadow, i / 8, n), shadow)
      == Attempt(o, Request(OutputReg, WriteChannel(on, i), fate, fate))
  {
  }

  /** A port of which `n` bytes were read back, and no more. */
  lemma RefreshAttempt(o: Copies, i: nat, n: nat)
    requires i < 16 && n <= 1
    ensures var fate := Passed(n, 0, Refreshed, Unread);
      Copies(o.device, SplicePorts(o.shadow, o.device, i / 8, n)) == Attempt(o, Request(OutputReg, Toggle(i), fate, fate))
  {
  }

  /** A port read back, toggled in the shadow, and `n` bytes of it sent. */
  lemma ToggleAttempt(o: Copies, i: nat, n: nat)
    requires i < 16 && n <= 1
    ensures var shadow, fate := Toggled(SplicePorts(o.shadow, o.device, i / 8, 1), i), Passed(n, 0, Sent, Unsent);
      Copies(SplicePorts(o.device, shadow, i / 8, n), shadow) == Attempt(o, Request(OutputReg, Toggle(i), fate, fate))
  {
  }

  function Complement(p: Ports): Ports {
    Ports(FULL - p.port1, FULL - p.port2)
  }

  /** Both ports of which `n` bytes were read back, by a toggle or by `open`. */
  lemma RefreshAllAttempt(o: Copies, reg: Register, op: Op, n: nat)
    requires n <= 2 && ((reg.OutputReg? && op.ToggleAll?) || op.Reopen?)
    ensures Copies(o.device, SplicePorts(o.shadow, o.device, 0, n))
         == Attempt(o, Request(reg, op, Passed(n, 0, Refreshed, Unread), Passed(n, 1, Refreshed, Unread)))
  {
  }

  lemma ToggleAllAttempt(o: Copies, n: nat)
    requires n <= 2
    ensures Copies(SplicePorts(o.device, Complement(o.device), 0, n), Complement(o.device))
         == Attempt(o, Request(OutputReg, ToggleAll, Passed(n, 0, Sent, Unsent), Passed(n, 1, Sent, Unsent)))
  {
  }

  /** A toggle that the device took does to its outputs what the operation says. */
  lemma ToggleDelivered(o: Copies, r: Request)
    requires r.reg == OutputReg && InRange(r.op) && (r.op.ToggleAll? || r.op.Toggle?)
    requires forall k | 0 <= k < 2 && Concerns(OutputReg, r.op, k) :: r.FateOf(k) == Sent
    ensures Attempt(o, r).device == if r.op.ToggleAll? then Complement(o.device) else Toggled(o.device, r.op.i)
  {
    assert r.op.Toggle? ==> Concerns(OutputReg, r.op, r.op.i / 8);
    assert r.op.ToggleAll? ==> Concerns(OutputReg, r.op, 0) && Concerns(OutputReg, r.op, 1);
  }

  /** The directions of a port of which `n` bytes were read back, and no more. */
  lemma RefreshModeAttempt(o: Copies, op: Op, i: nat, n: nat)
    requires i < 16 && n <= 1 && InRange(op) && (op.SetMode? || op.ReadMode?) && op.i == i
    ensures var fate := Passed(n, 0, Refreshed, Unread);
      Copies(o.device, SplicePorts(o.shadow, o.device, i / 8, n)) == Attempt(o, Request(ConfigReg, op, fate, fate))
  {
  }

  /** The directions of a port read back, changed in the shadow, and `n` bytes of them sent. */
  lemma ModeAttempt(o: Copies, m: Mode, i: nat, n: nat)
    requires i < 16 && n <= 1 && Supported(m)
    ensures var shadow := PutDirection(SplicePorts(o.shadow, o.device, i / 8, 1), m, i);
      var fate := Passed(n, 0, Sent, Unsent);
      Copies(SplicePorts(o.device, shadow, i / 8, n), shadow) == Attempt(o, Request(ConfigReg, SetMode(m, i), fate, fate))
  {
  }

  function AllDirections(p: Ports, m: Mode): Ports {
    if Has(m, DIGITAL_OUTPUT) then Ports({}, {}) else if Has(m, DIGITAL_INPUT) then Ports(FULL, FULL) else p
  }

  lemma AllModesAttempt(o: Copies, m: Mode, n: nat)
    requires n <= 2 && Supported(m)
    ensures var shadow := AllDirections(o.shadow, m);
      Copies(SplicePorts(o.device, shadow, 0, n), shadow)
      == Attempt(o, Request(ConfigReg, SetModeAll(m), Passed(n, 0, Sent, Unsent), Passed(n, 1, Sent, Unsent)))
  {
  }

  /** An operation on the other register leaves this one alone, and counts as having gone through. */
  lemma Unconcerned(o: Copies, reg: Register, op: Op)
    requires InRange(op) && !Concerns(reg, op, 0) && !Concerns(reg, op, 1)
    ensures Attempt(o, Request(reg, op, Sent, Sent)) == o && Went(Request(reg, op, Sent, Sent))
  {
  }

  /** The device at the other end of the I2C bus. */
  class Device {
    const replies: nat -> Reply
    var input: Pair
    var regs: Regs
    var timeout: bv8
    var bus: seq<Transfer>

    constructor (replies: nat -> Reply, input: Pair, regs: Regs, timeout: bv8)
      ensures this.input == input && this.regs == regs && this.timeout == timeout
      ensures this.replies == replies && bus == []
    {
      this.replies, this.input, this.regs, this.timeout, bus := replies, input, regs, timeout, [];
    }

    /** One exchange over the bus, which answers it as it pleases and keeps a record. */
    method Transact(c: Command) returns (reply: Reply)
      modifies this`bus
      ensures reply == replies(|old(bus)|) && bus == old(bus) + [Transfer(c, reply.ok)]
    {
      reply := replies(|bus|);
      bus := bus + [Transfer(c, reply.ok)];
    }
  }

  class Driver {
    const device: Device
    const busTimeout: bool
    var input: Pair
    var regs: Regs
    var timeout: bv8

    /** The shadow output, polarity and configuration registers agree with the device. */
    ghost predicate Coherent()
      reads this, device
    {
      regs == device.regs
    }

    /** Since the record `b`, the bus was asked for `plan`. */
    ghost predicate Transacted(b: seq<Transfer>, plan: seq<Command>, ok: bool)
      reads device
    {
      Did(device.replies, b, device.bus, plan, ok)
    }

    ghost function Held(): Chip
      reads device
    {
      View(device.regs)
    }

    ghost function Outs(): Copies
      reads this, device
    {
      Copies(PortsOf(device.regs.output), PortsOf(regs.output))
    }

    ghost function Confs(): Copies
      reads this, device
    {
      Copies(PortsOf(device.regs.config), PortsOf(regs.config))
    }

    constructor (device: Device, busTimeout: bool)
      ensures this.device == device
    {
      this.device := device;
      this.busTimeout := busTimeout;
      input, timeout := Pair(0, 0), 0;
      regs := Regs(Pair(0, 0), Pair(0, 0), Pair(0, 0));
    }

    // -- port transfers -------------------------------------------------------

    method ReadOutputs(index: nat, nb: nat) returns (ok: bool, ghost n: nat)
      requires 0 < nb && index + nb <= 2
      modifies this`regs, device`bus
      ensures n <= nb && (ok ==> n == nb) && Transacted(old(device.bus), [Fetch(OutputBank, index, nb)], ok)
      ensures regs == old(regs).(output := Splice(old(regs).output, device.regs.output, index, n))
    {
      var buf;
      DidOne(device.replies, device.bus, Fetch(OutputBank, index, nb));
      var reply := device.Transact(Fetch(OutputBank, index, nb));
      ok, buf, n := Receive(device.regs.output, index, nb, regs.output, reply);
      regs := regs.(output := buf);
    }

    method WriteOutputs(index: nat, nb: nat) returns (ok: bool, ghost n: nat)
      requires 0 < nb && index + nb <= 2
      modifies device
      ensures n <= nb && (ok ==> n == nb) && Transacted(old(device.bus), [Store(OutputBank, index, nb)], ok)
      ensures device.regs == old(device.regs).(output := Splice(old(device.regs).output, regs.output, index, n))
    {
      var held;
      DidOne(device.replies, device.bus, Store(OutputBank, index, nb));
      var reply := device.Transact(Store(OutputBank, index, nb));
      ok, held, n := Send(device.regs.output, index, nb, regs.output, reply);
      device.regs := device.regs.(output := held);
    }

    /** `writeSetup`: polarity, then configuration if that went through. */
    method WriteSetup(index: nat, nb: nat) returns (ok: bool, ghost n: nat)
      requires 0 < nb && index + nb <= 2
      modifies device
      ensures n <= nb && (ok ==> n == nb)
      ensures Transacted(old(device.bus), [Store(PolarityBank, index, nb), Store(ConfigBank, index, nb)], ok)
      ensures device.regs.output == old(device.regs).output
      ensures device.regs.config == Splice(old(device.regs).config, regs.config, index, n)
      ensures var d := old(device.regs);
        ok ==> device.regs == d.(polarity := Splice(d.polarity, regs.polarity, index, nb),
                                 config := Splice(d.config, regs.config, index, nb))
      ensures old(Coherent()) ==> Coherent()
    {
      var held;
      ghost var first, second := [Store(PolarityBank, index, nb)], [Store(ConfigBank, index, nb)];
      DidOne(device.replies, device.bus, Store(PolarityBank, index, nb));
      var reply := device.Transact(Store(PolarityBank, index, nb));
      ok, held, n := Send(device.regs.polarity, index, nb, regs.polarity, reply);
      device.regs := device.regs.(polarity := held);
      assert first + second == [Store(PolarityBank, index, nb), Store(ConfigBank, index, nb)];
      if !ok {
        DidStop(device.replies, old(device.bus), device.bus, first, second);
        n := 0;
        return;
      }
      ghost var mid := device.bus;
      DidOne(device.replies, device.bus, Store(ConfigBank, index, nb));
      reply := device.Transact(Store(ConfigBank, index, nb));
      DidThen(device.replies, old(device.bus), mid, device.bus, first, second, reply.ok);
      ok, held, n := Send(device.regs.config, index, nb, regs.config, reply);
      device.regs := device.regs.(config := held);
    }

    /** `readSetup`: refreshes the shadow of polarity and configuration. */
    method ReadSetup(index: nat, nb: nat) returns (ok: bool, ghost n: nat)
      requires 0 < nb && index + nb <= 2
      modifies this`regs, device`bus
      ensures n <= nb && (ok ==> n == nb)
      ensures Transacted(old(device.bus), [Fetch(PolarityBank, index, nb), Fetch(ConfigBank, index, nb)], ok)
      ensures regs.output == old(regs).output
      ensures regs.config == Splice(old(regs).config, device.regs.config, index, n)
      ensures var s := old(regs);
        ok ==> regs == s.(polarity := Splice(s.polarity, device.regs.polarity, index, nb),
                          config := Splice(s.config, device.regs.config, index, nb))
      ensures old(Coherent()) ==> Coherent()
    {
      var buf;
      ghost var first, second := [Fetch(PolarityBank, index, nb)], [Fetch(ConfigBank, index, nb)];
      DidOne(device.replies, device.bus, Fetch(PolarityBank, index, nb));
      var reply := device.Transact(Fetch(PolarityBank, index, nb));
      ok, buf, n := Receive(device.regs.polarity, index, nb, regs.polarity, reply);
      regs := regs.(polarity := buf);
      assert first + second == [Fetch(PolarityBank, index, nb), Fetch(ConfigBank, index, nb)];
      if !ok {
        DidStop(device.replies, old(device.bus), device.bus, first, second);
        n := 0;
        return;
      }
      ghost var mid := device.bus;
      DidOne(device.replies, device.bus, Fetch(ConfigBank, index, nb));
      reply := device.Transact(Fetch(ConfigBank, index, nb));
      DidThen(device.replies, old(device.bus), mid, device.bus, first, second, reply.ok);
      ok, buf, n := Receive(device.regs.config, index, nb, regs.config, reply);
      regs := regs.(config := buf);
    }

    // -- channel numbers ------------------------------------------------------

    /** `channel / 8`, which rounds toward zero. */
    static function Quotient(channel: int): int {
      if channel >= 0 then channel / 8 else -(-channel / 8)
    }

    /** `channel % 8`, negative for a negative channel that 8 does not divide. */
    static function Remainder(channel: int): int {
      channel - 8 * Quotient(channel)
    }

    /** The port of a channel as `uint8_t index = channel / 8` computes it. */
    static function PortOf(channel: int): nat {
      Quotient(channel) % 256
    }

    /** The pin that a channel number addresses: the channel itself below 16. */
    static function PinOf(channel: int): (i: nat)
      requires PortOf(channel) <= 1 && Remainder(channel) >= 0
      ensures i < 16 && i / 8 == PortOf(channel) && i % 8 == Remainder(channel)
      ensures 0 <= channel < 16 ==> i == channel
    {
      8 * PortOf(channel) + Remainder(channel)
    }

    /** Channels 0 to 15 are the pins; the next are refused, up to where the quotient wraps. */
    static lemma ChannelsArePins(channel: int)
      ensures 0 <= channel < 16 ==> PortOf(channel) <= 1 && Remainder(channel) >= 0 && PinOf(channel) == channel
      ensures 16 <= channel < 2048 ==> PortOf(channel) > 1
      ensures -8 < channel < 0 ==> PortOf(channel) <= 1 && Remainder(channel) < 0
    {
    }

    // -- operations -----------------------------------------------------------

    /** `write`, after the value has been clamped to 16 bits. */
    method DoWrite(value: bv16) returns (ok: bool, ghost r: Request)
      modifies this, device
      ensures View(regs) == Apply(old(View(regs)), Write(value))
      ensures ok ==> Held() == Apply(old(Held()), Write(value))
      ensures ok && old(Coherent()) ==> Coherent()
      ensures r.op == Write(value) && Outs() == Attempt(old(Outs()), r) && (ok ==> Went(r))
      ensures r.reg == OutputReg && Confs() == old(Confs())
      ensures Transacted(old(device.bus), Plan(Write(value)), ok)
    {
      regs := regs.(output := regs.output.Put(1, HighByte(value)));
      regs := regs.(output := regs.output.Put(0, LowByte(value)));
      ghost var n;
      ok, n := WriteOutputs(0, 2);
      r := Request(OutputReg, Write(value), Passed(n, 0, Sent, Unsent), Passed(n, 1, Sent, Unsent));
    }

    /** The body of `writeChannel` for a channel that exists: the shadow first, then its byte to the device. */
    method WritePin(on: bool, i: nat) returns (ok: bool, ghost r: Request)
      requires i < 16
      modifies this, device
      ensures View(regs) == Apply(old(View(regs)), WriteChannel(on, i))
      ensures ok && old(Coherent()) ==> Coherent()
      ensures ok ==> r.FateOf(i / 8) == Sent && Went(r)
      ensures ok ==> device.regs == old(device.regs).(output := device.regs.output)
      ensures r.op == WriteChannel(on, i) && Outs() == Attempt(old(Outs()), r)
      ensures Transacted(old(device.bus), Plan(WriteChannel(on, i)), ok)
      ensures r.reg == OutputReg && Confs() == old(Confs())
    {
      var buf := PutBitOf(regs.output, i, on);
      regs := regs.(output := buf);
      ghost var n;
      ok, n := WriteOutputs(i / 8, 1);
      SpliceView(old(device.regs).output, regs.output, i / 8, n);
      WriteAttempt(old(Outs()), on, i, n);
      ghost var fate := Passed(n, 0, Sent, Unsent);
      r := Request(OutputReg, WriteChannel(on, i), fate, fate);
    }

    /**
     `writeChannel`. A negative channel that 8 does not divide shifts out of range when its quotient wraps to a port
     that exists; other channels are refused, or address a pin.
     */
    method DoWriteChannel(value: int, channel: int) returns (ok: Outcome<bool>, ghost r: Request)
      modifies this, device
      ensures ok.Undefined? <==> PortOf(channel) <= 1 && Remainder(channel) < 0
      ensures PortOf(channel) > 1 ==> ok == Defined(false)
      ensures PortOf(channel) > 1 || ok.Undefined? ==>
        regs == old(regs) && device.regs == old(device.regs) && device.bus == old(device.bus)
      ensures PortOf(channel) <= 1 && Remainder(channel) >= 0 ==>
        Transacted(old(device.bus), Plan(WriteChannel(value != 0, PinOf(channel))), ok == Defined(true))
      ensures PortOf(channel) <= 1 && Remainder(channel) >= 0 ==>
        && View(regs) == Apply(old(View(regs)), WriteChannel(value != 0, PinOf(channel)))
        && r.op == WriteChannel(value != 0, PinOf(channel)) && Outs() == Attempt(old(Outs()), r)
      ensures ok == Defined(true) ==> Went(r)
      ensures r.reg == OutputReg && Confs() == old(Confs())
      ensures ok == Defined(true) && old(Coherent()) ==> Coherent()
    {
      if PortOf(channel) > 1 {
        return Defined(false), Request(OutputReg, Reopen, Unread, Unread);
      }
      if Remainder(channel) < 0 {
        return Undefined, Request(OutputReg, Reopen, Unread, Unread);
      }
      var done;
      done, r := WritePin(value != 0, PinOf(channel));
      ok := Defined(done);
    }

    /** The second half of `toggle` on a channel, its port having been read back. */
    method FlipPin(i: nat) returns (ok: bool, ghost n: nat)
      requires i < 16
      modifies this, device
      ensures n <= 1 && (ok ==> n == 1)
      ensures Transacted(old(device.bus), [Store(OutputBank, i / 8, 1)], ok)
      ensures PortsOf(regs.output) == Toggled(old(PortsOf(regs.output)), i)
      ensures regs == old(regs).(output := Splice(old(regs).output, regs.output, i / 8, 1))
      ensures device.regs == old(device.regs).(output := Splice(old(device.regs).output, regs.output, i / 8, n))
    {
      var buf := XorBitOf(regs.output, i);
      regs := regs.(output := buf);
      ok, n := WriteOutputs(i / 8, 1);
    }

    /** `toggle` of a channel that exists: reads the port back first, so it flips what the device holds. */
    method TogglePin(i: nat) returns (ok: bool, ghost r: Request)
      requires i < 16
      modifies this, device
      ensures ok ==> device.regs == old(device.regs).(output := device.regs.output)
      ensures ok ==> r.FateOf(i / 8) == Sent
      ensures ok && old(Coherent()) ==> Coherent()
      ensures r.op == Toggle(i) && Outs() == Attempt(old(Outs()), r)
      ensures Transacted(old(device.bus), Plan(Toggle(i)), ok)
      ensures r.reg == OutputReg && Confs() == old(Confs())
    {
      ghost var n, fate, o := 0, Unread, Outs();
      ghost var first, second := [Fetch(OutputBank, i / 8, 1)], [Store(OutputBank, i / 8, 1)];
      assert first + second == Plan(Toggle(i));
      ok, n := ReadOutputs(i / 8, 1);
      ghost var mid := device.bus;
      SpliceView(old(regs).output, device.regs.output, i / 8, n);
      RefreshAttempt(o, i, n);
      fate := Passed(n, 0, Refreshed, Unread);
      if ok {
        ok, n := FlipPin(i);
        SpliceView(old(device.regs).output, regs.output, i / 8, n);
        ToggleAttempt(o, i, n);
        fate := Passed(n, 0, Sent, Unsent);
        DidThen(device.replies, old(device.bus), mid, device.bus, first, second, ok);
      } else {
        DidStop(device.replies, old(device.bus), device.bus, first, second);
      }
      r := Request(OutputReg, Toggle(i), fate, fate);
    }

    /** The second half of `toggle` on all channels. */
    method FlipPins() returns (ok: bool, ghost n: nat)
      modifies this, device
      ensures n <= 2 && (ok ==> n == 2)
      ensures Transacted(old(device.bus), [Store(OutputBank, 0, 2)], ok)
      ensures PortsOf(regs.output) == Complement(old(PortsOf(regs.output)))
      ensures regs == old(regs).(output := regs.output)
      ensures device.regs == old(device.regs).(output := Splice(old(device.regs).output, regs.output, 0, n))
    {
      XorTogglesAll(regs.output);
      regs := regs.(output := Pair(regs.output.b0 ^ 0xFF, regs.output.b1 ^ 0xFF));
      ok, n := WriteOutputs(0, 2);
    }

    method TogglePins() returns (ok: bool, ghost r: Request)
      modifies this, device
      ensures ok ==> device.regs == old(device.regs).(output := device.regs.output)
      ensures ok ==> r.fate1 == Sent && r.fate2 == Sent
      ensures ok && old(Coherent()) ==> Coherent()
      ensures r.op == ToggleAll && Outs() == Attempt(old(Outs()), r)
      ensures Transacted(old(device.bus), Plan(ToggleAll), ok)
      ensures r.reg == OutputReg && Confs() == old(Confs())
    {
      ghost var n, o := 0, Outs();
      ghost var first, second := [Fetch(OutputBank, 0, 2)], [Store(OutputBank, 0, 2)];
      assert first + second == Plan(ToggleAll);
      ok, n := ReadOutputs(0, 2);
      ghost var mid := device.bus;
      SpliceView(old(regs).output, device.regs.output, 0, n);
      RefreshAllAttempt(o, OutputReg, ToggleAll, n);
      r := Request(OutputReg, ToggleAll, Passed(n, 0, Refreshed, Unread), Passed(n, 1, Refreshed, Unread));
      if ok {
        ok, n := FlipPins();
        SpliceView(old(device.regs).output, regs.output, 0, n);
        ToggleAllAttempt(o, n);
        r := Request(OutputReg, ToggleAll, Passed(n, 0, Sent, Unsent), Passed(n, 1, Sent, Unsent));
        DidThen(device.replies, old(device.bus), mid, device.bus, first, second, ok);
      } else {
        DidStop(device.replies, old(device.bus), device.bus, first, second);
      }
    }

    /** `toggle`: one channel, or all of them for a negative number. */
    method DoToggle(channel: int) returns (ok: bool, ghost r: Request)
      modifies this, device
      ensures ok ==> channel < 0 || PortOf(channel) <= 1
      ensures ok ==> Held() == Apply(old(Held()), if channel < 0 then ToggleAll else Toggle(PinOf(channel)))
      ensures ok && old(Coherent()) ==> Coherent()
      ensures channel < 0 || PortOf(channel) <= 1 ==>
        && r.op == (if channel < 0 then ToggleAll else Toggle(PinOf(channel)))
        && Outs() == Attempt(old(Outs()), r) && (ok ==> Went(r))
      ensures channel >= 0 && PortOf(channel) > 1 ==>
        !ok && regs == old(regs) && device.regs == old(device.regs) && device.bus == old(device.bus)
      ensures channel < 0 || PortOf(channel) <= 1 ==>
        Transacted(old(device.bus), Plan(if channel < 0 then ToggleAll else Toggle(PinOf(channel))), ok)
      ensures r.reg == OutputReg && Confs() == old(Confs())
    {
      if channel < 0 {
        ok, r := TogglePins();
        if ok {
          ToggleDelivered(old(Outs()), r);
        }
      } else if PortOf(channel) <= 1 {
        ok, r := TogglePin(PinOf(channel));
        if ok {
          ToggleDelivered(old(Outs()), r);
        }
      } else {
        ok, r := false, Request(OutputReg, Reopen, Unread, Unread);
      }
    }

    /** `setMode` of a channel that exists: reads the port's setup back, changes one bit of each, sends both. */
    method SetPinMode(m: Mode, i: nat) returns (ok: bool, ghost r: Request)
      requires i < 16 && Supported(m)
      modifies this, device
      ensures ok ==> Held() == Apply(old(Held()), SetMode(m, i))
      ensures ok && old(Coherent()) ==> Coherent()
      ensures r.reg == ConfigReg && r.op == SetMode(m, i) && Confs() == Attempt(old(Confs()), r) && (ok ==> Went(r))
      ensures Outs() == old(Outs()) && Transacted(old(device.bus), Plan(SetMode(m, i)), ok)
    {
      ghost var n, fate, o := 0, Unread, Confs();
      ghost var first := [Fetch(PolarityBank, i / 8, 1), Fetch(ConfigBank, i / 8, 1)];
      ghost var second := [Store(PolarityBank, i / 8, 1), Store(ConfigBank, i / 8, 1)];
      ok, n := ReadSetup(i / 8, 1);
      ghost var mid := device.bus;
      SpliceView(old(regs).config, device.regs.config, i / 8, n);
      RefreshModeAttempt(o, SetMode(m, i), i, n);
      fate := Passed(n, 0, Refreshed, Unread);
      if ok {
        ghost var s, d := View(regs), View(device.regs);
        var config := ChangeDirection(regs.config, m, i);
        var polarity := PutBitOf(regs.polarity, i, Has(m, ACTIVE_LOW));
        regs := regs.(config := config, polarity := polarity);
        ok, n := WriteSetup(i / 8, 1);
        SpliceView(old(device.regs).config, config, i / 8, n);
        SpliceView(old(device.regs).polarity, polarity, i / 8, 1);
        ModeSpliced(d.config, s.config, d.polarity, s.polarity, m, i);
        ModeAttempt(o, m, i, n);
        fate := Passed(n, 0, Sent, Unsent);
        DidThen(device.replies, old(device.bus), mid, device.bus, first, second, ok);
      } else {
        DidStop(device.replies, old(device.bus), device.bus, first, second);
      }
      r := Request(ConfigReg, SetMode(m, i), fate, fate);
    }

    /** Shadow and device agree on the directions. */
    ghost predicate SameDirections()
      reads this, device
    {
      PortsOf(regs.config) == PortsOf(device.regs.config)
    }

    /** The shadow half of `setMode(m, -1)`. */
    method SetShadowModes(m: Mode)
      requires Supported(m)
      modifies this`regs
      ensures View(regs) == Apply(old(View(regs)), SetModeAll(m))
      ensures PortsOf(regs.config) == AllDirections(old(PortsOf(regs.config)), m)
      ensures regs.output == old(regs).output && (!Directed(m) ==> regs.config == old(regs).config)
    {
      Constants();
      if Has(m, DIGITAL_OUTPUT) {
        regs := regs.(config := Pair(0x00, 0x00));
      } else if Has(m, DIGITAL_INPUT) {
        regs := regs.(config := Pair(0xFF, 0xFF));
      }
      if Has(m, ACTIVE_LOW) {
        regs := regs.(polarity := Pair(0xFF, 0xFF));
      } else {
        regs := regs.(polarity := Pair(0x00, 0x00));
      }
    }

    /**
     `setMode(m, -1)`: sends what the shadow says without reading back. A mode that names no direction then delivers
     the shadow's directions, and those of a `setMode` that failed before with them.
     */
    method SetAllModes(m: Mode) returns (ok: bool, ghost r: Request)
      requires Supported(m)
      modifies this, device
      ensures View(regs) == Apply(old(View(regs)), SetModeAll(m))
      ensures ok ==> regs.(output := device.regs.output) == device.regs
      ensures ok ==> (Held() == Apply(old(Held()), SetModeAll(m)) <==> Directed(m) || old(SameDirections()))
      ensures ok && old(Coherent()) ==> Coherent()
      ensures r.reg == ConfigReg && r.op == SetModeAll(m) && Confs() == Attempt(old(Confs()), r) && (ok ==> Went(r))
      ensures Outs() == old(Outs()) && Transacted(old(device.bus), Plan(SetModeAll(m)), ok)
    {
      SetShadowModes(m);
      ghost var n;
      ok, n := WriteSetup(0, 2);
      SpliceView(old(device.regs).config, regs.config, 0, n);
      AllModesAttempt(old(Confs()), m, n);
      r := Request(ConfigReg, SetModeAll(m), Passed(n, 0, Sent, Unsent), Passed(n, 1, Sent, Unsent));
    }

    /** `setMode`: refuses unsupported modes, then one channel or all of them. */
    method DoSetMode(m: Mode, channel: int) returns (ok: bool, ghost r: Request)
      modifies this, device
      ensures ok ==> Supported(m) && (channel < 0 || PortOf(channel) <= 1)
      ensures !Supported(m) || (channel >= 0 && PortOf(channel) > 1) ==>
        regs == old(regs) && device.regs == old(device.regs) && device.bus == old(device.bus)
      ensures Supported(m) && (channel < 0 || PortOf(channel) <= 1) ==>
        Transacted(old(device.bus), Plan(if channel < 0 then SetModeAll(m) else SetMode(m, PinOf(channel))), ok)
      ensures ok && channel >= 0 ==> Held() == Apply(old(Held()), SetMode(m, PinOf(channel)))
      ensures ok && channel < 0 ==>
        (Held() == Apply(old(Held()), SetModeAll(m)) <==> Directed(m) || old(SameDirections()))
      ensures ok && old(Coherent()) ==> Coherent()
      ensures Supported(m) && (channel < 0 || PortOf(channel) <= 1) ==>
        && r.reg == ConfigReg && r.op == (if channel < 0 then SetModeAll(m) else SetMode(m, PinOf(channel)))
        && Confs() == Attempt(old(Confs()), r) && (ok ==> Went(r))
      ensures Outs() == old(Outs())
    {
      ok, r := false, Request(ConfigReg, Reopen, Unread, Unread);
      if !Supported(m) {
        return;
      }
      if channel < 0 {
        ok, r := SetAllModes(m);
      } else if PortOf(channel) <= 1 {
        ok, r := SetPinMode(m, PinOf(channel));
      }
    }

    /** The mode that the bits of a pin's setup stand for. */
    static method ModeBits(input: bool, inverted: bool) returns (mode: Mode)
      ensures mode == (if input then DIGITAL_INPUT | PULL_UP else DIGITAL_OUTPUT) | (if inverted then ACTIVE_LOW else 0)
    {
      mode := 0;
      if !input {
        mode := mode | DIGITAL_OUTPUT;
      } else {
        mode := mode | (DIGITAL_INPUT | PULL_UP);
      }
      if inverted {
        mode := mode | ACTIVE_LOW;
      }
    }

    /** The read half of `mode`, on a channel that exists. */
    method ReadPinSetup(i: nat) returns (read: bool, ghost r: Request)
      requires i < 16
      modifies this`regs, device`bus
      ensures Transacted(old(device.bus), Plan(ReadMode(i)), read)
      ensures read ==> PortBit(PortsOf(regs.config), i) == PortBit(Held().config, i)
      ensures read ==> PortBit(PortsOf(regs.polarity), i) == PortBit(Held().polarity, i)
      ensures r.reg == ConfigReg && r.op == ReadMode(i) && Confs() == Attempt(old(Confs()), r) && (read ==> Went(r))
      ensures Outs() == old(Outs())
      ensures old(Coherent()) ==> Coherent()
    {
      ghost var n;
      read, n := ReadSetup(i / 8, 1);
      SpliceView(old(regs).config, device.regs.config, i / 8, n);
      RefreshModeAttempt(old(Confs()), ReadMode(i), i, n);
      ghost var fate := Passed(n, 0, Refreshed, Unread);
      r := Request(ConfigReg, ReadMode(i), fate, fate);
    }

    /**
     `mode`: what the device holds, once its setup was read; 0 when the transfer fails or there is no such channel. A
     negative channel that wraps to a port shifts out of range after the read.
     */
    method DoMode(channel: int) returns (result: Outcome<Mode>, ghost read: bool, ghost r: Request)
      modifies this`regs, device`bus
      ensures read ==> PortOf(channel) <= 1
      ensures PortOf(channel) > 1 ==> device.bus == old(device.bus)
      ensures PortOf(channel) <= 1 ==>
        Transacted(old(device.bus), [Fetch(PolarityBank, PortOf(channel), 1), Fetch(ConfigBank, PortOf(channel), 1)], read)
      ensures !read ==> result == Defined(0)
      ensures read ==> (result.Undefined? <==> Remainder(channel) < 0)
      ensures read && Remainder(channel) >= 0 ==> result == Defined(ModeOf(Held(), PinOf(channel)))
      ensures PortOf(channel) <= 1 && Remainder(channel) >= 0 ==>
        && r.reg == ConfigReg && r.op == ReadMode(PinOf(channel))
        && Confs() == Attempt(old(Confs()), r) && (read ==> Went(r))
      ensures Outs() == old(Outs())
      ensures old(Coherent()) ==> Coherent()
    {
      result, read, r := Defined(0), false, Request(ConfigReg, Reopen, Unread, Unread);
      if PortOf(channel) > 1 {
        return;
      }
      var ok;
      if Remainder(channel) < 0 {
        ghost var n;
        ok, n := ReadSetup(PortOf(channel), 1);
        read := ok;
        if ok {
          result := Undefined;
        }
        return;
      }
      ok, r := ReadPinSetup(PinOf(channel));
      read := ok;
      if ok {
        var input := TestBit(regs.config, PinOf(channel));
        var inverted := TestBit(regs.polarity, PinOf(channel));
        var mode := ModeBits(input, inverted);
        result := Defined(mode);
      }
    }

    /** The setup and the bus timeout, at the end of what `open` reads. */
    method ReadRest() returns (ok: bool, ghost rc: Request)
      modifies this, device`bus
      ensures regs.output == old(regs).output && (ok && old(regs).output == device.regs.output ==> Coherent())
      ensures rc.reg == ConfigReg && rc.op == Reopen && Confs() == Attempt(old(Confs()), rc) && (ok ==> Went(rc))
      ensures Transacted(old(device.bus),
                    [Fetch(PolarityBank, 0, 2), Fetch(ConfigBank, 0, 2)] + [Fetch(TimeoutBank, 0, 1)], ok)
    {
      ghost var n;
      ghost var first, second := [Fetch(PolarityBank, 0, 2), Fetch(ConfigBank, 0, 2)], [Fetch(TimeoutBank, 0, 1)];
      ok, n := ReadSetup(0, 2);
      SpliceView(old(regs).config, device.regs.config, 0, n);
      RefreshAllAttempt(old(Confs()), ConfigReg, Reopen, n);
      rc := Request(ConfigReg, Reopen, Passed(n, 0, Refreshed, Unread), Passed(n, 1, Refreshed, Unread));
      if !ok {
        DidStop(device.replies, old(device.bus), device.bus, first, second);
        return;
      }
      ghost var mid := device.bus;
      DidOne(device.replies, device.bus, Fetch(TimeoutBank, 0, 1));
      var reply := device.Transact(Fetch(TimeoutBank, 0, 1));
      DidThen(device.replies, old(device.bus), mid, device.bus, first, second, reply.ok);
      ok := reply.ok;
      if ok {
        timeout := device.timeout;
      }
    }

    /** The outputs, and then the rest. */
    method ReadOutputsAndRest() returns (ok: bool, ghost r: Request, ghost rc: Request)
      modifies this, device`bus
      ensures ok ==> Coherent()
      ensures r.reg == OutputReg && r.op == Reopen && Outs() == Attempt(old(Outs()), r) && (ok ==> Went(r))
      ensures rc.reg == ConfigReg && rc.op == Reopen && Confs() == Attempt(old(Confs()), rc) && (ok ==> Went(rc))
      ensures Transacted(old(device.bus), [Fetch(OutputBank, 0, 2)]
                    + ([Fetch(PolarityBank, 0, 2), Fetch(ConfigBank, 0, 2)] + [Fetch(TimeoutBank, 0, 1)]), ok)
    {
      ghost var n;
      ghost var first := [Fetch(OutputBank, 0, 2)];
      ghost var second := [Fetch(PolarityBank, 0, 2), Fetch(ConfigBank, 0, 2)] + [Fetch(TimeoutBank, 0, 1)];
      rc := Request(ConfigReg, Reopen, Unread, Unread);
      ok, n := ReadOutputs(0, 2);
      SpliceView(old(regs).output, device.regs.output, 0, n);
      RefreshAllAttempt(old(Outs()), OutputReg, Reopen, n);
      r := Request(OutputReg, Reopen, Passed(n, 0, Refreshed, Unread), Passed(n, 1, Refreshed, Unread));
      if !ok {
        DidStop(device.replies, old(device.bus), device.bus, first, second);
        return;
      }
      ghost var mid := device.bus;
      ok, rc := ReadRest();
      DidThen(device.replies, old(device.bus), mid, device.bus, first, second, ok);
    }

    method OpenBus() returns (ok: bool)
      modifies device`bus
      ensures Transacted(old(device.bus), [Connect], ok)
    {
      DidOne(device.replies, device.bus, Connect);
      var reply := device.Transact(Connect);
      ok := reply.ok;
    }

    method ReadInputs() returns (ok: bool)
      modifies this`input, device`bus
      ensures Transacted(old(device.bus), [Fetch(InputBank, 0, 2)], ok) && (ok ==> input == device.input)
    {
      ghost var n;
      DidOne(device.replies, device.bus, Fetch(InputBank, 0, 2));
      var reply := device.Transact(Fetch(InputBank, 0, 2));
      ok, input, n := Receive(device.input, 0, 2, input, reply);
    }

    /** The reading half of `open`: the bus is opened, then every register is read until one cannot be. */
    method ReadAll() returns (ok: bool, ghost r: Request, ghost rc: Request)
      modifies this, device`bus
      ensures ok ==> Coherent()
      ensures r.reg == OutputReg && r.op == Reopen && Outs() == Attempt(old(Outs()), r) && (ok ==> Went(r))
      ensures rc.reg == ConfigReg && rc.op == Reopen && Confs() == Attempt(old(Confs()), rc) && (ok ==> Went(rc))
      ensures Transacted(old(device.bus), Plan(Reopen), ok)
    {
      ghost var last := [Fetch(OutputBank, 0, 2)]
                        + ([Fetch(PolarityBank, 0, 2), Fetch(ConfigBank, 0, 2)] + [Fetch(TimeoutBank, 0, 1)]);
      ghost var rest := [Fetch(InputBank, 0, 2)] + last;
      r, rc := Request(OutputReg, Reopen, Unread, Unread), Request(ConfigReg, Reopen, Unread, Unread);
      ok := OpenBus();
      if !ok {
        DidStop(device.replies, old(device.bus), device.bus, [Connect], rest);
        return;
      }
      ghost var mid := device.bus;
      ok := ReadInputs();
      if !ok {
        DidStop(device.replies, mid, device.bus, [Fetch(InputBank, 0, 2)], last);
        DidThen(device.replies, old(device.bus), mid, device.bus, [Connect], rest, false);
        return;
      }
      ghost var mid' := device.bus;
      ok, r, rc := ReadOutputsAndRest();
      DidThen(device.replies, mid, mid', device.bus, [Fetch(InputBank, 0, 2)], last, ok);
      DidThen(device.replies, old(device.bus), mid, device.bus, [Connect], rest, ok);
    }

    /**
     `open`: reads every register into the shadow, then sends the setup back. Whether that last transfer works is
     ignored by the source, and does not matter: it sends what the device already holds.
     */
    method DoOpen() returns (ok: bool, ghost r: Request, ghost rc: Request)
      modifies this, device
      ensures ok ==> Coherent() && device.regs == old(device.regs)
      ensures r.reg == OutputReg && r.op == Reopen && Outs() == Attempt(old(Outs()), r) && (ok ==> Went(r))
      ensures rc.reg == ConfigReg && rc.op == Reopen && Confs() == Attempt(old(Confs()), rc) && (ok ==> Went(rc))
      ensures DidOp(device.replies, old(device.bus), device.bus, Reopen, ok)
    {
      ok, r, rc := ReadAll();
      if ok {
        timeout := if busTimeout then 0x01 else 0x00;
        ghost var n, mid := 0, device.bus;
        var done;
        done, n := WriteSetup(0, 2);
        assert device.bus[..|mid|] == mid;
      }
    }

    // -- runs -----------------------------------------------------------------

    /** One operation of a run, whatever becomes of its transfers, as a request to each register. */
    method Perform(op: Op) returns (ok: bool, ghost r: Request, ghost rc: Request)
      requires InRange(op)
      modifies this, device
      ensures ok && old(Coherent()) ==> Coherent() && Held() == Apply(old(Held()), op)
      ensures r.reg == OutputReg && r.op == op && Outs() == Attempt(old(Outs()), r) && (ok ==> Went(r))
      ensures rc.reg == ConfigReg && rc.op == op && Confs() == Attempt(old(Confs()), rc) && (ok ==> Went(rc))
      ensures DidOp(device.replies, old(device.bus), device.bus, op, ok)
    {
      r, rc := Request(OutputReg, op, Sent, Sent), Request(ConfigReg, op, Sent, Sent);
      if op.SetMode? || op.SetModeAll? || op.ReadMode? {
        Unconcerned(Outs(), OutputReg, op);
        ok, rc := PerformSetup(op);
      } else if op.Reopen? {
        ok, r, rc := DoOpen();
      } else {
        Unconcerned(Confs(), ConfigReg, op);
        ok, r := PerformOutput(op);
      }
    }

    method PerformOutput(op: Op) returns (ok: bool, ghost r: Request)
      requires InRange(op) && (op.Write? || op.WriteChannel? || op.Toggle? || op.ToggleAll?)
      modifies this, device
      ensures ok && old(Coherent()) ==> Coherent() && Held() == Apply(old(Held()), op)
      ensures r.reg == OutputReg && r.op == op && Outs() == Attempt(old(Outs()), r) && (ok ==> Went(r))
      ensures Confs() == old(Confs()) && Transacted(old(device.bus), Plan(op), ok)
    {
      match op {
        case Write(v) => ok, r := DoWrite(v);
        case WriteChannel(on, i) =>
          var o;
          o, r := DoWriteChannel(if on then 1 else 0, i);
          ok := o == Defined(true);
        case Toggle(i) => ok, r := DoToggle(i);
        case ToggleAll => ok, r := DoToggle(-1);
      }
    }

    method PerformSetup(op: Op) returns (ok: bool, ghost rc: Request)
      requires InRange(op) && (op.SetMode? || op.SetModeAll? || op.ReadMode?)
      modifies this, device
      ensures ok && old(Coherent()) ==> Coherent() && Held() == Apply(old(Held()), op)
      ensures rc.reg == ConfigReg && rc.op == op && Confs() == Attempt(old(Confs()), rc) && (ok ==> Went(rc))
      ensures Outs() == old(Outs()) && Transacted(old(device.bus), Plan(op), ok)
    {
      match op {
        case SetMode(m, i) => ok, rc := DoSetMode(m, i);
        case SetModeAll(m) => ok, rc := DoSetMode(m, -1);
        case ReadMode(i) => ok, rc := ReadPinSetup(i);
      }
    }

    /** Every run whose transfers succeed keeps the shadow equal to the device and does to it what the run says. */
    method Replay(ops: seq<Op>) returns (ok: bool)
      requires Coherent() && forall op | op in ops :: InRange(op)
      modifies this, device
      ensures ok ==> Coherent() && Held() == ApplyAll(old(Held()), ops)
      ensures old(device.bus) <= device.bus
      ensures Working(old(device.bus), device.bus) ==> ok
    {
      ghost var c := Held();
      ok := true;
      for k := 0 to |ops|
        invariant ok && Coherent() && Held() == ApplyAll(c, ops[..k]) && old(device.bus) <= device.bus
      {
        assert ops[..k + 1] == ops[..k] + [ops[k]];
        ApplyLast(c, ops[..k], ops[k]);
        ghost var r, rc, b := Request(OutputReg, ops[k], Sent, Sent), Request(ConfigReg, ops[k], Sent, Sent), device.bus;
        ok, r, rc := Perform(ops[k]);
        DidOpGrows(device.replies, b, device.bus, ops[k], ok);
        if !ok {
          return;
        }
      }
      assert ops[..|ops|] == ops;
    }

    /** After every run whose transfers succeed, `mode(i)` reports what was last set on the channel, if it can read. */
    method ModeAfter(ops: seq<Op>, last: Op, later: seq<Op>, i: nat)
      returns (ok: bool, result: Outcome<Mode>, ghost read: bool)
      requires Coherent() && i < 16 && SetsModeOf(last, i) && InRange(last) && Directed(last.m)
      requires forall op | op in ops :: InRange(op)
      requires forall op | op in later :: InRange(op) && !SetsModeOf(op, i)
      modifies this, device
      ensures ok ==> result == Defined(if read then Reported(last.m) else 0)
    {
      ghost var c := Held();
      result, read := Defined(0), false;
      assert forall op | op in ops + [last] + later :: op in ops || op == last || op in later;
      ok := Replay(ops + [last] + later);
      if ok {
        ModeSticks(c, ops, last, later, i);
        ghost var r;
        result, read, r := DoMode(i);
      }
    }

    /** Everything that the bus was asked for since the record `b` worked. */
    static ghost predicate Working(b: seq<Transfer>, a: seq<Transfer>) {
      forall k | |b| <= k < |a| :: a[k].ok
    }

    static lemma DidOpGrows(replies: nat -> Reply, b: seq<Transfer>, a: seq<Transfer>, op: Op, ok: bool)
      requires DidOp(replies, b, a, op, ok)
      ensures b <= a && (!ok ==> |b| < |a| && !a[|a| - 1].ok)
    {
    }

    /** The operations of a run with what they returned. */
    static function Log(ops: seq<Op>, oks: seq<bool>): (log: seq<Answer>)
      requires |ops| == |oks|
      ensures |log| == |ops| && forall k | 0 <= k < |ops| :: log[k] == Answer(ops[k], oks[k])
    {
      seq(|ops|, k requires 0 <= k < |ops| && |ops| == |oks| => Answer(ops[k], oks[k]))
    }

    static lemma LogMore(ops: seq<Op>, oks: seq<bool>, op: Op, ok: bool)
      requires |ops| == |oks|
      ensures Log(ops + [op], oks + [ok]) == Log(ops, oks) + [Answer(op, ok)]
    {
    }

    static lemma AttemptMore(o: Copies, rs: seq<Request>, r: Request)
      requires InRange(r.op) && forall x | x in rs :: InRange(x.op)
      ensures AttemptAll(o, rs + [r]) == Attempt(AttemptAll(o, rs), r)
    {
      assert (rs + [r])[..|rs|] == rs;
    }

    /** What a history of requests, one for each register, made of both, and that it fits the answers. */
    static ghost predicate Endured(
        outs: Copies, confs: Copies, rs: seq<Request>, cs: seq<Request>, log: seq<Answer>, outs': Copies, confs': Copies) {
      && Explains(OutputReg, rs, log) && Explains(ConfigReg, cs, log)
      && (forall r | r in rs :: InRange(r.op)) && (forall r | r in cs :: InRange(r.op))
      && outs' == AttemptAll(outs, rs) && confs' == AttemptAll(confs, cs)
    }

    static lemma EnduredMore(
        outs: Copies, confs: Copies, rs: seq<Request>, cs: seq<Request>, log: seq<Answer>,
        outs': Copies, confs': Copies, r: Request, rc: Request, a: Answer)
      requires Endured(outs, confs, rs, cs, log, outs', confs') && InRange(a.op)
      requires r.reg == OutputReg && r.op == a.op && (a.ok ==> Went(r))
      requires rc.reg == ConfigReg && rc.op == a.op && (a.ok ==> Went(rc))
      ensures Endured(outs, confs, rs + [r], cs + [rc], log + [a], Attempt(outs', r), Attempt(confs', rc))
    {
      ExplainsMore(OutputReg, rs, log, r, a);
      ExplainsMore(ConfigReg, cs, log, rc, a);
      AttemptMore(outs, rs, r);
      AttemptMore(confs, cs, rc);
    }

    /** One operation of a run, added to its history. */
    method EndureOne(op: Op, ghost o: Copies, ghost c: Copies, ghost rs: seq<Request>, ghost cs: seq<Request>,
                     ghost log: seq<Answer>)
      returns (ok: bool, ghost rs': seq<Request>, ghost cs': seq<Request>)
      requires InRange(op) && Endured(o, c, rs, cs, log, Outs(), Confs())
      modifies this, device
      ensures Endured(o, c, rs', cs', log + [Answer(op, ok)], Outs(), Confs())
      ensures old(device.bus) <= device.bus && (Working(old(device.bus), device.bus) ==> ok)
    {
      ghost var r, rc;
      ghost var o', c' := Outs(), Confs();
      ok, r, rc := Perform(op);
      DidOpGrows(device.replies, old(device.bus), device.bus, op, ok);
      EnduredMore(o, c, rs, cs, log, o', c', r, rc, Answer(op, ok));
      rs', cs' := rs + [r], cs + [rc];
    }

    /** Every run, whatever fails on the way, moves both registers by a history of requests that fits its answers. */
    method Endure(ops: seq<Op>) returns (oks: seq<bool>, ghost rs: seq<Request>, ghost cs: seq<Request>)
      requires forall op | op in ops :: InRange(op)
      modifies this, device
      ensures |oks| == |ops|
      ensures Endured(old(Outs()), old(Confs()), rs, cs, Log(ops, oks), Outs(), Confs())
      ensures old(device.bus) <= device.bus
      ensures Working(old(device.bus), device.bus) ==> forall ok | ok in oks :: ok
    {
      ghost var o, c := Outs(), Confs();
      oks, rs, cs := [], [], [];
      for k := 0 to |ops|
        invariant |oks| == k && Endured(o, c, rs, cs, Log(ops[..k], oks), Outs(), Confs())
        invariant old(device.bus) <= device.bus
        invariant Working(old(device.bus), device.bus) ==> forall ok | ok in oks :: ok
      {
        var ok;
        ghost var b := device.bus;
        ok, rs, cs := EndureOne(ops[k], o, c, rs, cs, Log(ops[..k], oks));
        LogMore(ops[..k], oks, ops[k], ok);
        WorkedBefore(old(device.bus), b, device.bus);
        assert ops[..k + 1] == ops[..k] + [ops[k]];
        oks := oks + [ok];
      }
      assert ops[..|ops|] == ops;
    }

    static lemma WorkedBefore(b: seq<Transfer>, m: seq<Transfer>, a: seq<Transfer>)
      requires b <= m <= a
      ensures b <= a && (Working(b, a) ==> Working(b, m) && Working(m, a))
    {
      assert forall k | |b| <= k < |m| :: m[k] == a[k];
    }

    /**
     What delivering `op` after the history `rs` does to pin `i` of a register `c`: a pin it asks for gets what it
     asks; another keeps what it had exactly when its port is not sent or nothing else is owed to it, and so whenever
     the answers show it to be safe, or the last operation on its port returned true.
     */
    static ghost predicate DeliveredRightly(
        c: Ports, reg: Register, rs: seq<Request>, log: seq<Answer>, op: Op, before: Ports, after: Ports, i: nat)
      requires i < 16
    {
      var k, sent := KnownOf(c, rs, i), Concerns(reg, op, i / 8);
      && (sent && Touches(op, i) ==> PortBit(after, i) == LevelAfter(op, i, k.due))
      && (!Touches(op, i) ==> (PortBit(after, i) == PortBit(before, i) <==> !sent || Paid(k)))
      && (!Touches(op, i) && Safe(PortBit(c, i), reg, log, i) ==> PortBit(after, i) == PortBit(before, i))
      && (!Touches(op, i) && LastWent(reg, log, i / 8) ==> PortBit(after, i) == PortBit(before, i))
    }

    static lemma SentIsAll(o: Copies, r: Request)
      requires InRange(r.op) && FromShadow(r.op) && Went(r)
      ensures Attempt(o, r) == Attempt(o, Request(r.reg, r.op, Sent, Sent))
    {
      assert Concerns(r.reg, r.op, 0) ==> r.FateOf(0) == Sent;
      assert Concerns(r.reg, r.op, 1) ==> r.FateOf(1) == Sent;
    }

    static lemma Delivery(c: Ports, rs: seq<Request>, log: seq<Answer>, r: Request, i: nat)
      requires i < 16 && InRange(r.op) && FromShadow(r.op) && Went(r) && Explains(r.reg, rs, log)
      requires forall x | x in rs :: InRange(x.op)
      ensures var o := AttemptAll(Copies(c, c), rs);
        DeliveredRightly(c, r.reg, rs, log, r.op, o.device, Attempt(o, r).device, i)
    {
      SentIsAll(AttemptAll(Copies(c, c), rs), r);
      OtherPinsUntouched(c, r.reg, rs, r.op, i);
      PossibleCovers(PortBit(c, i), r.reg, rs, log, i);
      if LastWent(r.reg, log, i / 8) {
        LastWentIsSafe(PortBit(c, i), r.reg, log, i);
      }
    }

    /**
     After any run from agreement with the device, whatever failed in it, a `write`, `writeChannel` or `setMode` of
     all channels that succeeds is delivered rightly on every pin, in its outputs and in its directions. `before` is
     what the device held when the run was over.
     */
    method PerformAfter(ops: seq<Op>, op: Op)
      returns (ok: bool, oks: seq<bool>, ghost rs: seq<Request>, ghost cs: seq<Request>, ghost before: Chip)
      requires Coherent() && InRange(op) && FromShadow(op) && forall o | o in ops :: InRange(o)
      modifies this, device
      ensures |oks| == |ops| && Explains(OutputReg, rs, Log(ops, oks)) && Explains(ConfigReg, cs, Log(ops, oks))
      ensures (forall r | r in rs :: InRange(r.op)) && (forall r | r in cs :: InRange(r.op))
      ensures var c := old(Held());
        && before.output == AttemptAll(Copies(c.output, c.output), rs).device
        && before.config == AttemptAll(Copies(c.config, c.config), cs).device
      ensures ok ==> forall i | 0 <= i < 16 ::
        DeliveredRightly(old(Held()).output, OutputReg, rs, Log(ops, oks), op, before.output, Held().output, i)
      ensures ok ==> forall i | 0 <= i < 16 ::
        DeliveredRightly(old(Held()).config, ConfigReg, cs, Log(ops, oks), op, before.config, Held().config, i)
    {
      ghost var c := Held();
      oks, rs, cs := Endure(ops);
      before := Held();
      ghost var r, rc;
      ok, r, rc := Perform(op);
      if ok {
        forall i | 0 <= i < 16
          ensures DeliveredRightly(c.output, OutputReg, rs, Log(ops, oks), op, before.output, Held().output, i)
          ensures DeliveredRightly(c.config, ConfigReg, cs, Log(ops, oks), op, before.config, Held().config, i)
        {
          Delivery(c.output, rs, Log(ops, oks), r, i);
          Delivery(c.config, cs, Log(ops, oks), rc, i);
        }
      }
    }
  }
}
