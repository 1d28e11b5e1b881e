/** Bytes as eight bits. */
module Bits {

  /** `1 << k`. */
  function Mask(k: nat): bv8
    requires k < 8
  {
    if k == 0 then 0x01 else Mask(k - 1) << 1
  }

  lemma Masks()
    ensures Mask(0) == 0x01 && Mask(1) == 0x02 && Mask(2) == 0x04 && Mask(3) == 0x08
    ensures Mask(4) == 0x10 && Mask(5) == 0x20 && Mask(6) == 0x40 && Mask(7) == 0x80
  {
    assert Mask(1) == 0x02;
    assert Mask(2) == 0x04;
    assert Mask(3) == 0x08;
    assert Mask(4) == 0x10;
    assert Mask(5) == 0x20;
    assert Mask(6) == 0x40;
  }

  predicate Bit(b: bv8, k: nat)
    requires k < 8
  {
    b & Mask(k) != 0
  }

  lemma SetBit(b: bv8, k: nat, j: nat)
    requires k < 8 && j < 8
    ensures Bit(b | Mask(k), j) <==> j == k || Bit(b, j)
  {
    Masks();
  }

  lemma ClearBit(b: bv8, k: nat, j: nat)
    requires k < 8 && j < 8
    ensures Bit(b & !Mask(k), j) <==> j != k && Bit(b, j)
  {
    Masks();
  }

  lemma MasksApart(k: nat, j: nat)
    requires k < 8 && j < 8
    ensures k != j ==> Mask(k) & Mask(j) == 0
    ensures Mask(k) & (Mask(k) - 1) == 0
  {
    Masks();
  }

  lemma XorBit(b: bv8, m: bv8, n: bv8)
    ensures m & n == 0 ==> (b ^ m) & n == b & n
    ensures m & (m - 1) == 0 && m != 0 ==> ((b ^ m) & m != 0 <==> b & m == 0)
  {
  }

  lemma FlipBit(b: bv8, k: nat, j: nat)
    requires k < 8 && j < 8
    ensures Bit(b ^ Mask(k), j) <==> if j == k then !Bit(b, j) else Bit(b, j)
  {
    MasksApart(k, j);
    MaskNotZero(k);
    XorBit(b, Mask(k), Mask(j));
  }

  lemma MaskNotZero(k: nat)
    requires k < 8
    ensures Mask(k) != 0
  {
    Masks();
  }

  lemma FlipAll(b: bv8, j: nat)
    requires j < 8
    ensures Bit(b ^ 0xFF, j) <==> !Bit(b, j)
    ensures Bit(0xFF, j) && !Bit(0x00, j)
  {
    Masks();
  }

  /** A byte as the set of its one-bits: what the register model below works on. */
  type Octet = s: set<nat> | forall k | k in s :: k < 8

  const FULL: Octet := {0, 1, 2, 3, 4, 5, 6, 7}

  function OnesBelow(b: bv8, n: nat): Octet
    requires n <= 8
  {
    if n == 0 then {} else if Bit(b, n - 1) then OnesBelow(b, n - 1) + {n - 1} else OnesBelow(b, n - 1)
  }

  function Ones(b: bv8): Octet {
    OnesBelow(b, 8)
  }

  lemma {:induction false} OnesBelowBit(b: bv8, n: nat, k: nat)
    requires n <= 8 && k < 8
    ensures k in OnesBelow(b, n) <==> k < n && Bit(b, k)
  {
    if n > 0 {
      OnesBelowBit(b, n - 1, k);
    }
  }

  lemma OnesBit(b: bv8, k: nat)
    requires k < 8
    ensures k in Ones(b) <==> Bit(b, k)
  {
    OnesBelowBit(b, 8, k);
  }

  function Flip(s: Octet, k: nat): Octet
    requires k < 8
  {
    if k in s then s - {k} else s + {k}
  }

  /** `b |= 1 << k` inserts a bit. */
  lemma OrInserts(b: bv8, k: nat)
    requires k < 8
    ensures Ones(b | Mask(k)) == Ones(b) + {k}
  {
    forall j | 0 <= j < 8 ensures j in Ones(b | Mask(k)) <==> j in Ones(b) + {k} {
      OnesBit(b, j);
      OnesBit(b | Mask(k), j);
      SetBit(b, k, j);
    }
  }

  /** `b &= ~(1 << k)` removes it. */
  lemma AndNotRemoves(b: bv8, k: nat)
    requires k < 8
    ensures Ones(b & !Mask(k)) == Ones(b) - {k}
  {
    forall j | 0 <= j < 8 ensures j in Ones(b & !Mask(k)) <==> j in Ones(b) - {k} {
      OnesBit(b, j);
      OnesBit(b & !Mask(k), j);
      ClearBit(b, k, j);
    }
  }

  /** `b ^= 1 << k` flips it. */
  lemma XorFlips(b: bv8, k: nat)
    requires k < 8
    ensures Ones(b ^ Mask(k)) == Flip(Ones(b), k)
  {
    forall j | 0 <= j < 8 ensures j in Ones(b ^ Mask(k)) <==> j in Flip(Ones(b), k) {
      OnesBit(b, j);
      OnesBit(b ^ Mask(k), j);
      FlipBit(b, k, j);
    }
  }

  /** `b ^= 0xFF` flips all of them, and the constants are the full and the empty set. */
  lemma XorComplements(b: bv8)
    ensures Ones(b ^ 0xFF) == FULL - Ones(b)
    ensures Ones(0xFF) == FULL && Ones(0x00) == {}
  {
    forall j | 0 <= j < 8
      ensures j in Ones(b ^ 0xFF) <==> j in FULL - Ones(b)
      ensures j in Ones(0xFF) && j !in Ones(0x00)
    {
      OnesBit(b, j);
      OnesBit(b ^ 0xFF, j);
      OnesBit(0xFF, j);
      OnesBit(0x00, j);
      FlipAll(b, j);
    }
  }

  function LowByte(v: bv16): bv8 {
    (v & 0xFF) as bv8
  }

  function HighByte(v: bv16): bv8 {
    ((v >> 8) & 0xFF) as bv8
  }

  /** Bit `i` of a 16-bit word, by its own mask. */
  predicate Bit16(v: bv16, i: nat)
    requires i < 16
  {
    v & (if i < 8 then Mask(i) as bv16 else (Mask(i - 8) as bv16) << 8) != 0
  }

  /** Which bit that is, by its weight. */
  lemma WeightsLow(v: bv16)
    ensures (Bit16(v, 0) <==> v & 0x0001 != 0) && (Bit16(v, 1) <==> v & 0x0002 != 0) && (Bit16(v, 2) <==> v & 0x0004 != 0)
    ensures (Bit16(v, 3) <==> v & 0x0008 != 0) && (Bit16(v, 4) <==> v & 0x0010 != 0) && (Bit16(v, 5) <==> v & 0x0020 != 0)
    ensures (Bit16(v, 6) <==> v & 0x0040 != 0) && (Bit16(v, 7) <==> v & 0x0080 != 0)
  {
    Masks();
  }

  lemma WeightsHigh(v: bv16)
    ensures (Bit16(v, 8) <==> v & 0x0100 != 0) && (Bit16(v, 9) <==> v & 0x0200 != 0) && (Bit16(v, 10) <==> v & 0x0400 != 0)
    ensures (Bit16(v, 11) <==> v & 0x0800 != 0) && (Bit16(v, 12) <==> v & 0x1000 != 0) && (Bit16(v, 13) <==> v & 0x2000 != 0)
    ensures (Bit16(v, 14) <==> v & 0x4000 != 0) && (Bit16(v, 15) <==> v & 0x8000 != 0)
  {
    Masks();
  }

  lemma WordBits(v: bv16, k: nat)
    requires k < 8
    ensures Bit(LowByte(v), k) == Bit16(v, k)
    ensures Bit(HighByte(v), k) == Bit16(v, k + 8)
  {
    Masks();
  }

  lemma WordOnes(v: bv16, k: nat)
    requires k < 8
    ensures k in Ones(LowByte(v)) <==> Bit16(v, k)
    ensures k in Ones(HighByte(v)) <==> Bit16(v, k + 8)
  {
    WordBits(v, k);
    OnesBit(LowByte(v), k);
    OnesBit(HighByte(v), k);
  }
}

/** The MAX7311 as its driver sees it: three pairs of writable registers, and the 16 pins they stand for. */
module Max7311Chip {
  import opened Bits

  /** A register pair, one byte for each port of eight pins. */
  datatype Ports = Ports(port1: Octet, port2: Octet) {
    function Get(k: nat): Octet
      requires k < 2
    {
      if k == 0 then port1 else port2
    }

    function Put(k: nat, b: Octet): Ports
      requires k < 2
    {
      if k == 0 then this.(port1 := b) else this.(port2 := b)
    }
  }

  datatype Chip = Chip(output: Ports, polarity: Ports, config: Ports)

  datatype Pin = Pin(high: bool, inverted: bool, input: bool)

  type Mode = bv32

  const DIGITAL_INPUT: Mode := 0x01
  const DIGITAL_OUTPUT: Mode := 0x02
  const PULL_UP: Mode := 0x10
  const ACTIVE_LOW: Mode := 0x40

  predicate Supported(m: Mode) {
    m & !(DIGITAL_OUTPUT | DIGITAL_INPUT | ACTIVE_LOW) == 0 && (m & DIGITAL_OUTPUT == 0 || m & DIGITAL_INPUT == 0)
  }

  predicate Has(m: Mode, flag: Mode) {
    m & flag != 0
  }

  /** The mode names a direction. */
  predicate Directed(m: Mode) {
    Has(m, DIGITAL_OUTPUT) || Has(m, DIGITAL_INPUT)
  }

  /**
   Channel numbers are split into a port and a bit; `-1` addresses all channels at once. `ReadMode` is `mode` and
   `Reopen` is `open`: both only read the device.
   */
  datatype Op =
    | Write(value: bv16)
    | WriteChannel(on: bool, i: nat)
    | Toggle(i: nat)
    | ToggleAll
    | SetMode(m: Mode, i: nat)
    | SetModeAll(m: Mode)
    | ReadMode(i: nat)
    | Reopen

  predicate InRange(op: Op) {
    && (op.WriteChannel? || op.Toggle? || op.SetMode? || op.ReadMode? ==> op.i < 16)
    && (op.SetMode? || op.SetModeAll? ==> Supported(op.m))
  }

  // ---------------------------------------------------------------------------
  // What each operation writes
  // ---------------------------------------------------------------------------

  function PutBit(p: Ports, i: nat, on: bool): Ports
    requires i < 16
  {
    p.Put(i / 8, if on then p.Get(i / 8) + {i % 8} else p.Get(i / 8) - {i % 8})
  }

  function Toggled(p: Ports, i: nat): Ports
    requires i < 16
  {
    p.Put(i / 8, Flip(p.Get(i / 8), i % 8))
  }

  /** A mode without a direction leaves the direction alone; the polarity is always set. */
  function PutDirection(p: Ports, m: Mode, i: nat): Ports
    requires i < 16
  {
    if Has(m, DIGITAL_OUTPUT) then PutBit(p, i, false) else if Has(m, DIGITAL_INPUT) then PutBit(p, i, true) else p
  }

  function Apply(c: Chip, op: Op): Chip
    requires InRange(op)
  {
    match op
    case Write(v) => c.(output := Ports(Ones(LowByte(v)), Ones(HighByte(v))))
    case WriteChannel(on, i) => c.(output := PutBit(c.output, i, on))
    case Toggle(i) => c.(output := Toggled(c.output, i))
    case ToggleAll => c.(output := Ports(FULL - c.output.port1, FULL - c.output.port2))
    case SetMode(m, i) =>
      c.(config := PutDirection(c.config, m, i), polarity := PutBit(c.polarity, i, Has(m, ACTIVE_LOW)))
    case SetModeAll(m) =>
      c.(config := if Has(m, DIGITAL_OUTPUT) then Ports({}, {})
                   else if Has(m, DIGITAL_INPUT) then Ports(FULL, FULL) else c.config,
         polarity := if Has(m, ACTIVE_LOW) then Ports(FULL, FULL) else Ports({}, {}))
    case _ => c
  }

  function ApplyAll(c: Chip, ops: seq<Op>): Chip
    requires forall op | op in ops :: InRange(op)
  {
    if ops == [] then c else Apply(ApplyAll(c, ops[..|ops| - 1]), ops[|ops| - 1])
  }

  /** The mode reported for channel `i`; inputs are always pulled up. */
  function ModeOf(c: Chip, i: nat): Mode
    requires i < 16
  {
    (if i % 8 in c.config.Get(i / 8) then DIGITAL_INPUT | PULL_UP else DIGITAL_OUTPUT)
    | (if i % 8 in c.polarity.Get(i / 8) then ACTIVE_LOW else 0)
  }

  // ---------------------------------------------------------------------------
  // Sixteen independent pins
  // ---------------------------------------------------------------------------

  predicate PortBit(p: Ports, i: nat)
    requires i < 16
  {
    i % 8 in p.Get(i / 8)
  }

  function PinAt(c: Chip, i: nat): Pin
    requires i < 16
  {
    Pin(PortBit(c.output, i), PortBit(c.polarity, i), PortBit(c.config, i))
  }

  /** What one pin does, as if it were alone. */
  function PinStep(p: Pin, op: Op, i: nat): Pin
    requires i < 16
  {
    match op
    case Write(v) => p.(high := Bit16(v, i))
    case WriteChannel(on, j) => if j == i then p.(high := on) else p
    case Toggle(j) => if j == i then p.(high := !p.high) else p
    case ToggleAll => p.(high := !p.high)
    case SetMode(m, j) => if j == i then PinMode(p, m) else p
    case SetModeAll(m) => PinMode(p, m)
    case _ => p
  }

  function PinMode(p: Pin, m: Mode): Pin {
    p.(inverted := Has(m, ACTIVE_LOW),
       input := if Has(m, DIGITAL_OUTPUT) then false else if Has(m, DIGITAL_INPUT) then true else p.input)
  }

  function PinRun(p: Pin, ops: seq<Op>, i: nat): Pin
    requires i < 16
  {
    if ops == [] then p else PinStep(PinRun(p, ops[..|ops| - 1], i), ops[|ops| - 1], i)
  }

  lemma PutBitMovesOne(p: Ports, i: nat, on: bool, j: nat)
    requires i < 16 && j < 16
    ensures PortBit(PutBit(p, i, on), j) == if j == i then on else PortBit(p, j)
  {
    assert i == 8 * (i / 8) + i % 8 && j == 8 * (j / 8) + j % 8;
  }

  lemma WriteOnPins(c: Chip, v: bv16, j: nat)
    requires j < 16
    ensures PinAt(Apply(c, Write(v)), j) == PinAt(c, j).(high := Bit16(v, j))
  {
    if j < 8 {
      assert j / 8 == 0 && j % 8 == j;
      WordOnes(v, j);
    } else {
      assert j / 8 == 1 && j % 8 == j - 8;
      WordOnes(v, j - 8);
    }
  }

  lemma ModeOnPins(c: Chip, m: Mode, i: nat, j: nat)
    requires i < 16 && j < 16 && Supported(m)
    ensures PinAt(Apply(c, SetMode(m, i)), j) == PinStep(PinAt(c, j), SetMode(m, i), j)
  {
    PutBitMovesOne(c.config, i, false, j);
    PutBitMovesOne(c.config, i, true, j);
    PutBitMovesOne(c.polarity, i, Has(m, ACTIVE_LOW), j);
  }

  /** One operation on the registers is one step of every pin on its own. */
  lemma StepRefinesPins(c: Chip, op: Op, j: nat)
    requires InRange(op) && j < 16
    ensures PinAt(Apply(c, op), j) == PinStep(PinAt(c, j), op, j)
  {
    match op {
      case Write(v) =>
        WriteOnPins(c, v, j);
      case WriteChannel(on, i) =>
        PutBitMovesOne(c.output, i, on, j);
      case Toggle(i) =>
        assert i == 8 * (i / 8) + i % 8 && j == 8 * (j / 8) + j % 8;
      case ToggleAll =>
      case SetMode(m, i) =>
        ModeOnPins(c, m, i, j);
      case SetModeAll(m) =>
      case _ =>
    }
  }

  /** Over every run the registers refine sixteen pins that do not know of each other. */
  lemma {:induction false} RunRefinesPins(c: Chip, ops: seq<Op>, i: nat)
    requires i < 16 && forall op | op in ops :: InRange(op)
    ensures PinAt(ApplyAll(c, ops), i) == PinRun(PinAt(c, i), ops, i)
  {
    if ops != [] {
      RunRefinesPins(c, ops[..|ops| - 1], i);
      StepRefinesPins(ApplyAll(c, ops[..|ops| - 1]), ops[|ops| - 1], i);
    }
  }

  /** The registers hold nothing but the pins. */
  lemma PinsDetermine(c: Chip, d: Chip)
    requires forall i | 0 <= i < 16 :: PinAt(c, i) == PinAt(d, i)
    ensures c == d
  {
    forall k | 0 <= k < 8
      ensures k in c.output.port1 <==> k in d.output.port1
      ensures k in c.output.port2 <==> k in d.output.port2
      ensures k in c.polarity.port1 <==> k in d.polarity.port1
      ensures k in c.polarity.port2 <==> k in d.polarity.port2
      ensures k in c.config.port1 <==> k in d.config.port1
      ensures k in c.config.port2 <==> k in d.config.port2
    {
      assert PinAt(c, k) == PinAt(d, k) && PinAt(c, k + 8) == PinAt(d, k + 8);
    }
    SameOctet(c.output.port1, d.output.port1);
    SameOctet(c.output.port2, d.output.port2);
    SameOctet(c.polarity.port1, d.polarity.port1);
    SameOctet(c.polarity.port2, d.polarity.port2);
    SameOctet(c.config.port1, d.config.port1);
    SameOctet(c.config.port2, d.config.port2);
  }

  lemma SameOctet(a: Octet, b: Octet)
    requires forall k | 0 <= k < 8 :: k in a <==> k in b
    ensures a == b
  {
  }

  // ---------------------------------------------------------------------------
  // Bulk operations are the single ones over all channels
  // ---------------------------------------------------------------------------

  /** The single-channel operations that a bulk operation stands for. */
  function Singles(op: Op, n: nat): (ops: seq<Op>)
    requires n <= 16 && (op.Write? || op.ToggleAll? || op.SetModeAll?) && InRange(op)
    ensures |ops| == n && forall o | o in ops :: InRange(o)
  {
    if n == 0 then [] else
      Singles(op, n - 1) + [match op
                            case Write(v) => WriteChannel(Bit16(v, n - 1), n - 1)
                            case SetModeAll(m) => SetMode(m, n - 1)
                            case _ => Toggle(n - 1)]
  }

  lemma {:induction false} SinglesOnPin(op: Op, n: nat, p: Pin, i: nat)
    requires n <= 16 && i < 16 && (op.Write? || op.ToggleAll? || op.SetModeAll?) && InRange(op)
    ensures PinRun(p, Singles(op, n), i) == if i < n then PinStep(p, op, i) else p
  {
    if n > 0 {
      SinglesOnPin(op, n - 1, p, i);
      assert Singles(op, n)[..n - 1] == Singles(op, n - 1);
    }
  }

  /** `write(v)`, `toggle(-1)` and `setMode(m, -1)` equal the single operations over channels 0 to 15. */
  lemma BulkIsFold(c: Chip, op: Op)
    requires (op.Write? || op.ToggleAll? || op.SetModeAll?) && InRange(op)
    ensures Apply(c, op) == ApplyAll(c, Singles(op, 16))
  {
    forall i | 0 <= i < 16 ensures PinAt(Apply(c, op), i) == PinAt(ApplyAll(c, Singles(op, 16)), i) {
      StepRefinesPins(c, op, i);
      RunRefinesPins(c, Singles(op, 16), i);
      SinglesOnPin(op, 16, PinAt(c, i), i);
    }
    PinsDetermine(Apply(c, op), ApplyAll(c, Singles(op, 16)));
  }

  // ---------------------------------------------------------------------------
  // Modes stick
  // ---------------------------------------------------------------------------

  predicate SetsModeOf(op: Op, i: nat) {
    op.SetModeAll? || (op.SetMode? && op.i == i)
  }

  /** The mode a supported request with a direction turns into: inputs gain the pull-up. */
  function Reported(m: Mode): Mode {
    if Has(m, DIGITAL_INPUT) then m | PULL_UP else m
  }

  lemma ModeRoundTrip(c: Chip, m: Mode, i: nat)
    requires i < 16 && Supported(m) && (Has(m, DIGITAL_INPUT) || Has(m, DIGITAL_OUTPUT))
    ensures ModeOf(Apply(c, SetMode(m, i)), i) == Reported(m)
    ensures ModeOf(Apply(c, SetModeAll(m)), i) == Reported(m)
  {
    StepRefinesPins(c, SetMode(m, i), i);
    StepRefinesPins(c, SetModeAll(m), i);
    ReportedMode(m);
  }

  lemma ReportedMode(m: Mode)
    requires Supported(m) && (Has(m, DIGITAL_INPUT) || Has(m, DIGITAL_OUTPUT))
    ensures Reported(m) == (if Has(m, DIGITAL_INPUT) then DIGITAL_INPUT | PULL_UP else DIGITAL_OUTPUT)
                           | (if Has(m, ACTIVE_LOW) then ACTIVE_LOW else 0)
  {
  }

  /** The modes that can be set, by their numbers: a direction or none, active low or not. */
  lemma SupportedModes(m: Mode)
    ensures Supported(m) <==> m == 0x00 || m == 0x01 || m == 0x02 || m == 0x40 || m == 0x41 || m == 0x42
  {
  }

  /** What setting each of them does to a pin, and what is then reported of it. */
  lemma ModeTable(c: Chip, m: Mode, i: nat)
    requires i < 16 && Supported(m)
    ensures var c' := Apply(c, SetMode(m, i));
      && (m == 0x01 || m == 0x41 ==> PinAt(c', i).input)
      && (m == 0x02 || m == 0x42 ==> !PinAt(c', i).input)
      && (m == 0x00 || m == 0x40 ==> PinAt(c', i).input == PinAt(c, i).input)
      && (PinAt(c', i).inverted <==> m == 0x40 || m == 0x41 || m == 0x42)
      && PinAt(c', i).high == PinAt(c, i).high
    ensures var p := PinAt(c, i);
      ModeOf(c, i) == if p.input then (if p.inverted then 0x51 else 0x11) else if p.inverted then 0x42 else 0x02
  {
    SupportedModes(m);
    StepRefinesPins(c, SetMode(m, i), i);
  }

  lemma OthersKeepMode(c: Chip, op: Op, i: nat)
    requires i < 16 && InRange(op) && !SetsModeOf(op, i)
    ensures ModeOf(Apply(c, op), i) == ModeOf(c, i)
  {
    StepRefinesPins(c, op, i);
  }

  lemma ApplyLast(c: Chip, ops: seq<Op>, op: Op)
    requires InRange(op) && forall o | o in ops :: InRange(o)
    ensures ApplyAll(c, ops + [op]) == Apply(ApplyAll(c, ops), op)
  {
    assert (ops + [op])[..|ops|] == ops;
  }

  /** Over every run, `mode(i)` is what the last `setMode` on `i` set. */
  lemma {:induction false} ModeSticks(c: Chip, ops: seq<Op>, last: Op, later: seq<Op>, i: nat)
    requires i < 16 && SetsModeOf(last, i) && InRange(last)
    requires Has(last.m, DIGITAL_INPUT) || Has(last.m, DIGITAL_OUTPUT)
    requires forall op | op in ops :: InRange(op)
    requires forall op | op in later :: InRange(op) && !SetsModeOf(op, i)
    ensures ModeOf(ApplyAll(c, ops + [last] + later), i) == Reported(last.m)
  {
    if later == [] {
      assert ops + [last] + later == ops + [last];
      ApplyLast(c, ops, last);
      ModeRoundTrip(ApplyAll(c, ops), last.m, i);
    } else {
      var init, op := later[..|later| - 1], later[|later| - 1];
      assert op in later && later == init + [op];
      assert ops + [last] + later == ops + [last] + init + [op];
      ModeSticks(c, ops, last, init, i);
      ApplyLast(c, ops + [last] + init, op);
      OthersKeepMode(ApplyAll(c, ops + [last] + init), op, i);
    }
  }

  // ---------------------------------------------------------------------------
  // Transfers that fail
  // ---------------------------------------------------------------------------

  /** The register pairs of which the shadow is sent without having been read back. */
  datatype Register = OutputReg | ConfigReg

  /**
   How far a request got on one port of a register: its byte was not read back; it was read back and nothing more;
   the shadow was changed but the device did not take it; the device took it.
   */
  datatype Fate = Unread | Refreshed | Unsent | Sent

  datatype Request = Request(reg: Register, op: Op, fate1: Fate, fate2: Fate) {
    function FateOf(k: nat): Fate
      requires k < 2
    {
      if k == 0 then fate1 else fate2
    }
  }

  /** A register pair, in the device and in the shadow. */
  datatype Copies = Copies(device: Ports, shadow: Ports)

  /** The byte of one port. */
  datatype Link = Link(device: Octet, shadow: Octet)

  /** The operation reads or writes the byte of port `k`. */
  predicate Concerns(reg: Register, op: Op, k: nat) {
    match op
    case Write(_) => reg.OutputReg?
    case ToggleAll => reg.OutputReg?
    case WriteChannel(_, i) => reg.OutputReg? && i / 8 == k
    case Toggle(i) => reg.OutputReg? && i / 8 == k
    case SetMode(_, i) => reg.ConfigReg? && i / 8 == k
    case ReadMode(i) => reg.ConfigReg? && i / 8 == k
    case SetModeAll(_) => reg.ConfigReg?
    case Reopen => true
  }

  /** The operation asks for a level, or a direction, of pin `i`. */
  predicate Touches(op: Op, i: nat) {
    match op
    case Write(_) => true
    case ToggleAll => true
    case WriteChannel(_, j) => i == j
    case Toggle(j) => i == j
    case SetMode(m, j) => i == j && Directed(m)
    case SetModeAll(m) => Directed(m)
    case _ => false
  }

  /** These operations start from the shadow; all others read the device back first. */
  predicate FromShadow(op: Op) {
    op.Write? || op.WriteChannel? || op.SetModeAll?
  }

  /** What the operation makes of the byte it starts from. */
  function Asked(b: Octet, op: Op, k: nat): Octet
    requires InRange(op) && k < 2
  {
    match op
    case Write(v) => if k == 0 then Ones(LowByte(v)) else Ones(HighByte(v))
    case WriteChannel(on, i) => if on then b + {i % 8} else b - {i % 8}
    case Toggle(i) => Flip(b, i % 8)
    case ToggleAll => FULL - b
    case SetMode(m, i) =>
      if Has(m, DIGITAL_OUTPUT) then b - {i % 8} else if Has(m, DIGITAL_INPUT) then b + {i % 8} else b
    case SetModeAll(m) => if Has(m, DIGITAL_OUTPUT) then {} else if Has(m, DIGITAL_INPUT) then FULL else b
    case _ => b
  }

  function AttemptPort(l: Link, r: Request, k: nat): Link
    requires InRange(r.op) && k < 2
  {
    if !Concerns(r.reg, r.op, k) then l
    else if FromShadow(r.op) then
      var b := Asked(l.shadow, r.op, k);
      Link(if r.FateOf(k).Sent? then b else l.device, b)
    else
      match r.FateOf(k)
      case Unread => l
      case Refreshed => Link(l.device, l.device)
      case Unsent => Link(l.device, Asked(l.device, r.op, k))
      case Sent => Link(Asked(l.device, r.op, k), Asked(l.device, r.op, k))
  }

  function LinkOf(o: Copies, k: nat): Link
    requires k < 2
  {
    Link(o.device.Get(k), o.shadow.Get(k))
  }

  /** A request as far as it got on each port. */
  function Attempt(o: Copies, r: Request): Copies
    requires InRange(r.op)
  {
    var l1, l2 := AttemptPort(LinkOf(o, 0), r, 0), AttemptPort(LinkOf(o, 1), r, 1);
    Copies(Ports(l1.device, l2.device), Ports(l1.shadow, l2.shadow))
  }

  function AttemptAll(o: Copies, rs: seq<Request>): Copies
    requires forall r | r in rs :: InRange(r.op)
  {
    if rs == [] then o else Attempt(AttemptAll(o, rs[..|rs| - 1]), rs[|rs| - 1])
  }

  // ---------------------------------------------------------------------------
  // What a caller can know of one pin
  // ---------------------------------------------------------------------------

  /** The level, or direction, that the device has for a pin, and the one that the next byte sent will give it. */
  datatype Known = Known(level: bool, due: bool)

  /** Nothing else than what the pin has is owed to it. */
  predicate Paid(k: Known) {
    k.due == k.level
  }

  /** What the operation makes of a pin. */
  function LevelAfter(op: Op, i: nat, level: bool): bool
    requires i < 16
  {
    if !Touches(op, i) then level
    else match op
      case Write(v) => Bit16(v, i)
      case WriteChannel(on, _) => on
      case SetMode(m, _) => !Has(m, DIGITAL_OUTPUT)
      case SetModeAll(m) => !Has(m, DIGITAL_OUTPUT)
      case _ => !level
  }

  function KnownAfter(k: Known, r: Request, i: nat): Known
    requires i < 16
  {
    var fate := r.FateOf(i / 8);
    if !Concerns(r.reg, r.op, i / 8) then k
    else if FromShadow(r.op) then
      var due := LevelAfter(r.op, i, k.due);
      Known(if fate.Sent? then due else k.level, due)
    else
      match fate
      case Unread => k
      case Refreshed => Known(k.level, k.level)
      case Unsent => Known(k.level, LevelAfter(r.op, i, k.level))
      case Sent => Known(LevelAfter(r.op, i, k.level), LevelAfter(r.op, i, k.level))
  }

  function KnownRun(k: Known, rs: seq<Request>, i: nat): Known
    requires i < 16
  {
    if rs == [] then k else KnownAfter(KnownRun(k, rs[..|rs| - 1], i), rs[|rs| - 1], i)
  }

  predicate Agrees(o: Copies, k: Known, i: nat)
    requires i < 16
  {
    PortBit(o.device, i) == k.level && PortBit(o.shadow, i) == k.due
  }

  /** What an operation makes of a byte, on one of its bits. */
  lemma AskedBit(b: Octet, reg: Register, op: Op, i: nat)
    requires InRange(op) && i < 16 && Concerns(reg, op, i / 8)
    ensures i % 8 in Asked(b, op, i / 8) <==> LevelAfter(op, i, i % 8 in b)
  {
    assert i == 8 * (i / 8) + i % 8;
    match op {
      case Write(v) => WordOnes(v, i % 8);
      case WriteChannel(_, j) => assert j == 8 * (j / 8) + j % 8;
      case Toggle(j) => assert j == 8 * (j / 8) + j % 8;
      case SetMode(_, j) => assert j == 8 * (j / 8) + j % 8;
      case _ =>
    }
  }

  lemma AttemptAgrees(o: Copies, r: Request, k: Known, i: nat)
    requires InRange(r.op) && i < 16 && Agrees(o, k, i)
    ensures Agrees(Attempt(o, r), KnownAfter(k, r, i), i)
  {
    if Concerns(r.reg, r.op, i / 8) {
      AskedBit(o.shadow.Get(i / 8), r.reg, r.op, i);
      AskedBit(o.device.Get(i / 8), r.reg, r.op, i);
    }
  }

  /** Over every history of requests, delivered or not, what a caller can know of a pin is so. */
  lemma {:induction false} HistoryAgrees(o: Copies, rs: seq<Request>, k: Known, i: nat)
    requires i < 16 && Agrees(o, k, i) && forall r | r in rs :: InRange(r.op)
    ensures Agrees(AttemptAll(o, rs), KnownRun(k, rs, i), i)
  {
    if rs != [] {
      HistoryAgrees(o, rs[..|rs| - 1], k, i);
      AttemptAgrees(AttemptAll(o, rs[..|rs| - 1]), rs[|rs| - 1], KnownRun(k, rs[..|rs| - 1], i), i);
    }
  }

  /** What a caller knows of pin `i` after the history `rs`, having started in agreement with the device. */
  function KnownOf(c: Ports, rs: seq<Request>, i: nat): Known
    requires i < 16
  {
    KnownRun(Known(PortBit(c, i), PortBit(c, i)), rs, i)
  }

  /**
   After any history, a delivered operation that starts from the shadow gives the pins it asks for what it asks, and
   leaves another pin alone exactly when it does not send that pin's port or nothing else is owed to the pin.
   */
  lemma OtherPinsUntouched(c: Ports, reg: Register, rs: seq<Request>, op: Op, i: nat)
    requires i < 16 && InRange(op) && FromShadow(op) && forall r | r in rs :: InRange(r.op)
    ensures var o := AttemptAll(Copies(c, c), rs);
      var o', k := Attempt(o, Request(reg, op, Sent, Sent)), KnownOf(c, rs, i);
      && PortBit(o.device, i) == k.level
      && (Touches(op, i) && Concerns(reg, op, i / 8) ==> PortBit(o'.device, i) == LevelAfter(op, i, k.due))
      && (!Touches(op, i) ==>
            (PortBit(o'.device, i) == PortBit(o.device, i) <==> !Concerns(reg, op, i / 8) || Paid(k)))
  {
    HistoryAgrees(Copies(c, c), rs, Known(PortBit(c, i), PortBit(c, i)), i);
    AttemptAgrees(AttemptAll(Copies(c, c), rs), Request(reg, op, Sent, Sent), KnownOf(c, rs, i), i);
  }

  /** So a write that failed is delivered late, by the next write to any other channel of its port. */
  lemma LateWrite(c: Ports, on: bool, i: nat, on': bool, j: nat)
    requires i < 16 && j < 16 && i != j && i / 8 == j / 8
    ensures var o := Attempt(Copies(c, c), Request(OutputReg, WriteChannel(on, i), Unsent, Unsent));
      var o' := Attempt(o, Request(OutputReg, WriteChannel(on', j), Sent, Sent));
      PortBit(o.device, i) == PortBit(c, i) && PortBit(o'.device, i) == on
  {
    var k, r := Known(PortBit(c, i), PortBit(c, i)), Request(OutputReg, WriteChannel(on, i), Unsent, Unsent);
    AttemptAgrees(Copies(c, c), r, k, i);
    AttemptAgrees(Attempt(Copies(c, c), r), Request(OutputReg, WriteChannel(on', j), Sent, Sent), KnownAfter(k, r, i), i);
  }

  /** And a direction whose `setMode` failed is delivered by the next `setMode` of all channels that names none. */
  lemma LateDirection(c: Ports, m: Mode, i: nat, m': Mode)
    requires i < 16 && Supported(m) && Directed(m) && Supported(m') && !Directed(m')
    ensures var o := Attempt(Copies(c, c), Request(ConfigReg, SetMode(m, i), Unsent, Unsent));
      var o' := Attempt(o, Request(ConfigReg, SetModeAll(m'), Sent, Sent));
      PortBit(o.device, i) == PortBit(c, i) && (PortBit(o'.device, i) <==> Has(m, DIGITAL_INPUT))
  {
    var k, r := Known(PortBit(c, i), PortBit(c, i)), Request(ConfigReg, SetMode(m, i), Unsent, Unsent);
    AttemptAgrees(Copies(c, c), r, k, i);
    AttemptAgrees(Attempt(Copies(c, c), r), Request(ConfigReg, SetModeAll(m'), Sent, Sent), KnownAfter(k, r, i), i);
    OneDirection(m);
  }

  lemma OneDirection(m: Mode)
    requires Supported(m) && Directed(m)
    ensures Has(m, DIGITAL_INPUT) <==> !Has(m, DIGITAL_OUTPUT)
  {
  }

  // ---------------------------------------------------------------------------
  // What a caller can tell from the answers
  // ---------------------------------------------------------------------------

  /** An operation and what it returned. */
  datatype Answer = Answer(op: Op, ok: bool)

  /** How far an operation that returns true has got. */
  function Through(op: Op): Fate {
    if op.Reopen? || op.ReadMode? then Refreshed else Sent
  }

  predicate Went(r: Request) {
    forall k | 0 <= k < 2 && Concerns(r.reg, r.op, k) :: r.FateOf(k) == Through(r.op)
  }

  /** The history `rs` fits the answers: what returned true went through, what returned false got anywhere. */
  ghost predicate Explains(reg: Register, rs: seq<Request>, log: seq<Answer>) {
    && |rs| == |log|
    && (forall k | 0 <= k < |log| ::
          rs[k].reg == reg && rs[k].op == log[k].op && InRange(log[k].op) && (log[k].ok ==> Went(rs[k])))
  }

  const FATES: set<Fate> := {Unread, Refreshed, Unsent, Sent}

  function PossibleAfter(ks: set<Known>, reg: Register, a: Answer, i: nat): set<Known>
    requires i < 16
  {
    set k, fate | k in ks && fate in FATES && (a.ok ==> fate == Through(a.op)) ::
      KnownAfter(k, Request(reg, a.op, fate, fate), i)
  }

  /** Everything that may be so of pin `i`, as far as a caller can tell who started in agreement. */
  function Possible(level: bool, reg: Register, log: seq<Answer>, i: nat): set<Known>
    requires i < 16
  {
    if log == [] then {Known(level, level)}
    else PossibleAfter(Possible(level, reg, log[..|log| - 1], i), reg, log[|log| - 1], i)
  }

  lemma PossibleStep(ks: set<Known>, k: Known, r: Request, a: Answer, i: nat)
    requires i < 16 && k in ks && r.op == a.op && (a.ok ==> Went(r))
    ensures KnownAfter(k, r, i) in PossibleAfter(ks, r.reg, a, i)
  {
    var fate := if Concerns(r.reg, r.op, i / 8) then r.FateOf(i / 8) else Through(r.op);
    assert KnownAfter(k, r, i) == KnownAfter(k, Request(r.reg, a.op, fate, fate), i);
  }

  lemma {:induction false} PossibleCovers(level: bool, reg: Register, rs: seq<Request>, log: seq<Answer>, i: nat)
    requires i < 16 && Explains(reg, rs, log)
    ensures KnownRun(Known(level, level), rs, i) in Possible(level, reg, log, i)
  {
    if log != [] {
      var n := |log| - 1;
      PossibleCovers(level, reg, rs[..n], log[..n], i);
      PossibleStep(Possible(level, reg, log[..n], i), KnownRun(Known(level, level), rs[..n], i), rs[n], log[n], i);
    }
  }

  lemma PossibleCame(ks: set<Known>, reg: Register, a: Answer, i: nat, k: Known) returns (was: Known, r: Request)
    requires i < 16 && k in PossibleAfter(ks, reg, a, i)
    ensures was in ks && KnownAfter(was, r, i) == k && r.reg == reg && r.op == a.op && (a.ok ==> Went(r))
  {
    var fate;
    was, fate :| was in ks && fate in FATES && (a.ok ==> fate == Through(a.op))
      && KnownAfter(was, Request(reg, a.op, fate, fate), i) == k;
    r := Request(reg, a.op, fate, fate);
  }

  lemma ExplainsMore(reg: Register, rs: seq<Request>, log: seq<Answer>, r: Request, a: Answer)
    requires Explains(reg, rs, log) && r.reg == reg && r.op == a.op && InRange(a.op) && (a.ok ==> Went(r))
    ensures Explains(reg, rs + [r], log + [a])
  {
  }

  lemma {:induction false} PossibleReached(level: bool, reg: Register, log: seq<Answer>, i: nat, k: Known)
    returns (rs: seq<Request>)
    requires i < 16 && k in Possible(level, reg, log, i) && forall a | a in log :: InRange(a.op)
    ensures Explains(reg, rs, log) && KnownRun(Known(level, level), rs, i) == k
  {
    if log == [] {
      rs := [];
    } else {
      var n := |log| - 1;
      var was, r := PossibleCame(Possible(level, reg, log[..n], i), reg, log[n], i, k);
      var init := PossibleReached(level, reg, log[..n], i, was);
      ExplainsMore(reg, init, log[..n], r, log[n]);
      rs := init + [r];
      assert rs[..n] == init && log == log[..n] + [log[n]];
    }
  }

  /** After the history `rs`, delivering `op` leaves pin `i` alone. */
  ghost predicate Untouched(c: Ports, reg: Register, rs: seq<Request>, op: Op, i: nat)
    requires i < 16 && InRange(op) && forall r | r in rs :: InRange(r.op)
  {
    var o := AttemptAll(Copies(c, c), rs);
    PortBit(Attempt(o, Request(reg, op, Sent, Sent)).device, i) == PortBit(o.device, i)
  }

  /** As far as a caller can tell, nothing else than what it has is owed to pin `i`. */
  predicate Safe(level: bool, reg: Register, log: seq<Answer>, i: nat)
    requires i < 16
  {
    forall k | k in Possible(level, reg, log, i) :: Paid(k)
  }

  lemma ExplainsInRange(reg: Register, rs: seq<Request>, log: seq<Answer>)
    requires Explains(reg, rs, log)
    ensures forall r | r in rs :: InRange(r.op)
  {
  }

  /**
   What a caller works out from the answers is exact: an operation that sends pin `i`'s port without asking for the
   pin is safe for it if and only if no history that fits the answers makes it do harm.
   */
  lemma SafeExactly(c: Ports, reg: Register, log: seq<Answer>, op: Op, i: nat)
    requires i < 16 && InRange(op) && FromShadow(op) && Concerns(reg, op, i / 8) && !Touches(op, i)
    requires forall a | a in log :: InRange(a.op)
    ensures Safe(PortBit(c, i), reg, log, i) <==>
      forall rs: seq<Request> | Explains(reg, rs, log) ::
        (forall r | r in rs :: InRange(r.op)) && Untouched(c, reg, rs, op, i)
  {
    forall rs: seq<Request> | Explains(reg, rs, log)
      ensures forall r | r in rs :: InRange(r.op)
      ensures var k := KnownOf(c, rs, i);
        k in Possible(PortBit(c, i), reg, log, i) && (Untouched(c, reg, rs, op, i) <==> Paid(k))
    {
      ExplainsInRange(reg, rs, log);
      PossibleCovers(PortBit(c, i), reg, rs, log, i);
      OtherPinsUntouched(c, reg, rs, op, i);
    }
    if k :| k in Possible(PortBit(c, i), reg, log, i) && !Paid(k) {
      var rs := PossibleReached(PortBit(c, i), reg, log, i, k);
      assert Explains(reg, rs, log) && KnownOf(c, rs, i) == k;
    }
  }

  /** The last operation on port `k` of the register, if there was one, returned true. */
  predicate LastWent(reg: Register, log: seq<Answer>, k: nat) {
    log == [] ||
    if Concerns(reg, log[|log| - 1].op, k) then log[|log| - 1].ok else LastWent(reg, log[..|log| - 1], k)
  }

  /** In particular a caller is safe whose last operation on the port returned true, whatever failed before. */
  lemma {:induction false} LastWentIsSafe(level: bool, reg: Register, log: seq<Answer>, i: nat)
    requires i < 16 && LastWent(reg, log, i / 8)
    ensures Safe(level, reg, log, i)
  {
    if log != [] && !Concerns(reg, log[|log| - 1].op, i / 8) {
      LastWentIsSafe(level, reg, log[..|log| - 1], i);
    }
  }
}
