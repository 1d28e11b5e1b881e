/** The configuration of a GPIO character-device line: what `GpioDev2` and `Gpio2::Line` hand to the kernel. */
module GpioConfig {

  /** The flag word, as the set of its named bits. */
  datatype Flag = ActiveLow | Input | Output | EdgeRising | EdgeFalling | BiasPullUp | BiasPullDown | BiasDisabled

  datatype AttrId = NoAttr | OutputValues | Debounce

  const U32: nat := 0x1_0000_0000

  type Word = n: nat | n < 0x1_0000_0000

  /** Attribute slot 0. Its 64-bit union is `low + 2^32 * high`; on the little-endian targets the period is `low`. */
  datatype Slot = Slot(id: AttrId, low: Word, high: Word, onLine0: bool)

  datatype LineConfig = LineConfig(flags: set<Flag>, numAttrs: nat, slot: Slot)

  const ZEROED := LineConfig({}, 0, Slot(NoAttr, 0, 0, false))

  datatype Mode = ModeInput | ModeOutput | ModeDisabled | ModeOther | ModeUnknown
  datatype Pull = PullOff | PullDown | PullUp | PullUnknown
  datatype Edge = EdgeNone | RisingEdge | FallingEdge | BothEdges | EdgeUnknown

  /** What the pin object answers when the device itself does not know; arbitrary here. */
  datatype PinView = PinView(mode: Mode, pull: Pull, level: bool)

  // ---------------------------------------------------------------------------
  // Well-formed configurations
  // ---------------------------------------------------------------------------

  /** Exactly one direction flag. */
  predicate OneDirection(flags: set<Flag>) {
    (Input in flags) != (Output in flags)
  }

  /** Exactly one bias flag: at least one, never two. */
  predicate OneBias(flags: set<Flag>) {
    var up, down, off := BiasPullUp in flags, BiasPullDown in flags, BiasDisabled in flags;
    (up || down || off) && !(up && down) && !(up && off) && !(down && off)
  }

  predicate WellFormed(c: LineConfig) {
    OneDirection(c.flags) && OneBias(c.flags)
  }

  /** The debounce period the kernel reads off a configuration, in microseconds. */
  function KernelPeriod(c: LineConfig): nat {
    if c.numAttrs >= 1 && c.slot.id == Debounce && c.slot.onLine0 then c.slot.low else 0
  }

  // ---------------------------------------------------------------------------
  // Building configurations
  // ---------------------------------------------------------------------------

  predicate HasBias(c: LineConfig, p: Pull) {
    match p
    case PullUp => BiasPullUp in c.flags
    case PullDown => BiasPullDown in c.flags
    case _ => BiasDisabled in c.flags
  }

  predicate HasDirection(c: LineConfig, m: Mode) {
    match m
    case ModeInput => Input in c.flags
    case ModeOutput => Output in c.flags
    case _ => false
  }

  function BiasOf(p: Pull): Flag {
    match p
    case PullUp => BiasPullUp
    case PullDown => BiasPullDown
    case _ => BiasDisabled
  }

  /** `pinConfig`: starts from a zeroed configuration; an unsupported mode becomes a pulled-down input. */
  function PinConfig(mode: Mode, pull: Pull, outputValue: int, pin: PinView): (c: LineConfig)
    ensures WellFormed(c)
    ensures mode == ModeInput ==> Input in c.flags && c.numAttrs == 0
    ensures mode == ModeOutput ==> Output in c.flags && c.numAttrs == 1 && c.slot.id == OutputValues && c.slot.onLine0
    ensures mode == ModeOutput && outputValue >= 0 ==> (c.slot.low == 1 <==> outputValue != 0)
    ensures mode in {ModeInput, ModeOutput} && pull != PullUnknown ==> HasBias(c, pull)
    ensures mode !in {ModeInput, ModeOutput, ModeUnknown} ==> c.flags == {Input, BiasPullDown}
    ensures c.slot.low <= 1
  {
    var m := if mode == ModeUnknown then pin.mode else mode;
    var p := if pull == PullUnknown then pin.pull else pull;
    if m == ModeInput then
      ZEROED.(flags := {Input, BiasOf(p)})
    else if m == ModeOutput then
      var initial := if outputValue >= 0 then outputValue != 0 else pin.level;
      LineConfig({Output, BiasOf(p)}, 1, Slot(OutputValues, if initial then 1 else 0, 0, true))
    else
      ZEROED.(flags := {Input, BiasPullDown})
  }

  /** The direction part of `setMode` on an open line. */
  function WithMode(c: LineConfig, m: Mode): LineConfig
    requires m == ModeInput || m == ModeOutput
  {
    if m == ModeInput then c.(flags := c.flags + {Input} - {Output})
    else c.(flags := c.flags + {Output} - {Input})
  }

  /** The bias part of `setPull` on an open line. */
  function WithPull(c: LineConfig, p: Pull): LineConfig
    requires p != PullUnknown
  {
    c.(flags := c.flags + {BiasOf(p)} - ({BiasPullUp, BiasPullDown, BiasDisabled} - {BiasOf(p)}))
  }

  function EdgeFlags(e: Edge): set<Flag> {
    match e
    case RisingEdge => {EdgeRising}
    case FallingEdge => {EdgeFalling}
    case BothEdges => {EdgeRising, EdgeFalling}
    case _ => {}
  }

  /** `Line::debounce`: reads the period out of slot 0 whatever the slot holds. */
  function LineDebounce(c: LineConfig): nat {
    c.slot.low / 1000
  }

  /** `Line::setDebounce` as a change of configuration; `debounce_ms * 1000` is taken in 32 bits. */
  function WithDebounce(c: LineConfig, ms: Word): LineConfig {
    if ms > 0 then LineConfig(c.flags, 1, Slot(Debounce, (ms * 1000) % U32, c.slot.high, true))
    else LineConfig(c.flags, 0, Slot(Debounce, 0, c.slot.high, false))
  }

  lemma ModeKeepsForm(c: LineConfig, m: Mode)
    requires OneBias(c.flags) && (m == ModeInput || m == ModeOutput)
    ensures WellFormed(WithMode(c, m)) && HasDirection(WithMode(c, m), m)
    ensures forall p | HasBias(c, p) :: HasBias(WithMode(c, m), p)
  {
  }

  lemma PullKeepsForm(c: LineConfig, p: Pull)
    requires OneDirection(c.flags) && p != PullUnknown
    ensures WellFormed(WithPull(c, p)) && HasBias(WithPull(c, p), p)
    ensures forall m | HasDirection(c, m) :: HasDirection(WithPull(c, p), m)
  {
  }

  lemma EdgesKeepForm(c: LineConfig, e: Edge)
    requires WellFormed(c)
    ensures WellFormed(c.(flags := c.flags + EdgeFlags(e)))
  {
  }

  /** A period survives the trip through microseconds exactly when it does not wrap 32 bits. */
  lemma DebounceWraps(ms: Word)
    ensures ((ms * 1000) % U32) / 1000 == ms <==> ms * 1000 < U32
    ensures (ms * 1000) % U32 == ms * 1000 <==> ms * 1000 < U32
  {
  }
}

/** Runs of the GPIO device: the state behind `GpioDev2` and `Gpio2::Line`, one operation at a time. */
module GpioRuns {
  import opened Bytes
  import opened GpioConfig

  /** `handed` records every configuration passed to the kernel; `kernel` is the last one it accepted. */
  datatype Line = Line(isOpen: bool, config: LineConfig, handed: seq<LineConfig>, kernel: LineConfig)

  datatype Dev = Dev(isOpen: bool, mode: Mode, pull: Pull, debounce: Word, outputValue: int, line: Line)

  /** The `ok` fields are the kernel's answers; so is `info`, which it may refuse to give. */
  datatype Op =
    | Open(pin: PinView, chipOpen: bool, ok: bool)
    | Close
    | SetMode(m: Mode, ok: bool)
    | SetPull(p: Pull, ok: bool)
    | SetDebounce(ms: Word)
    | Write(level: bool)
    | RefreshMode(info: Option<set<Flag>>)
    | RefreshPull(info: Option<set<Flag>>)
    | Arm(edge: Edge, pin: PinView, ok: bool, okDebounce: bool)

  // ---------------------------------------------------------------------------
  // The line
  // ---------------------------------------------------------------------------

  function LineOpen(l: Line, c: LineConfig, ok: bool): Line {
    if l.isOpen then l else Line(ok, c, l.handed + [c], if ok then c else l.kernel)
  }

  /** `Line::setConfig` remembers the configuration even when the kernel refuses it. */
  function LineSetConfig(l: Line, c: LineConfig, ok: bool): Line {
    if l.isOpen then l.(config := c, handed := l.handed + [c], kernel := if ok then c else l.kernel)
    else l.(config := c)
  }

  /** `Line::setDebounce` leaves everything alone when the period looks right already. */
  function LineSetDebounce(l: Line, ms: Word, ok: bool): Line {
    if ms == LineDebounce(l.config) then l else LineSetConfig(l, WithDebounce(l.config, ms), ok)
  }

  predicate LineSetDebounceResult(l: Line, ms: Word, ok: bool) {
    ms == LineDebounce(l.config) || (l.isOpen && ok)
  }

  // ---------------------------------------------------------------------------
  // The device
  // ---------------------------------------------------------------------------

  function ConfigOf(d: Dev, pin: PinView): (c: LineConfig)
    ensures WellFormed(c) && LineDebounce(c) == 0
  {
    PinConfig(d.mode, d.pull, d.outputValue, pin)
  }

  /** `setPinEdge`: rebuilds the configuration from scratch and adds the edges. */
  function ArmEdge(d: Dev, edge: Edge, pin: PinView, ok: bool): Dev {
    var c := ConfigOf(d, pin);
    d.(line := LineSetConfig(d.line, c.(flags := c.flags + EdgeFlags(edge)), ok))
  }

  predicate EdgeArmed(d: Dev, edge: Edge, ok: bool) {
    EdgeFlags(edge) != {} && d.line.isOpen && ok
  }

  function Step(d: Dev, op: Op): Dev {
    match op
    case Open(pin, chipOpen, ok) =>
      if d.isOpen || !chipOpen then d else
        var l := LineOpen(d.line, ConfigOf(d, pin), ok);
        d.(line := l, isOpen := l.isOpen)
    case Close =>
      if !d.isOpen then d else d.(isOpen := false, outputValue := -1, line := d.line.(isOpen := false))
    case SetMode(m, ok) =>
      if m != ModeInput && m != ModeOutput then d
      else if !d.isOpen then d.(mode := m)
      else d.(mode := m, line := LineSetConfig(d.line, WithMode(d.line.config, m), ok))
    case SetPull(p, ok) =>
      if p == PullUnknown then d
      else if !d.isOpen then d.(pull := p)
      else d.(pull := p, line := LineSetConfig(d.line, WithPull(d.line.config, p), ok))
    case SetDebounce(ms) => d.(debounce := ms)
    case Write(level) => if d.isOpen then d else d.(outputValue := if level then 1 else 0)
    case RefreshMode(info) =>
      if !d.isOpen || info.None? then d
      else d.(mode := if Output in info.value then ModeOutput
                      else if Input in info.value then ModeInput else ModeDisabled)
    case RefreshPull(info) =>
      if !d.isOpen || info.None? then d
      else d.(pull := if BiasPullUp in info.value then PullUp else if BiasPullDown in info.value then PullDown
                      else if BiasDisabled in info.value then PullOff else d.pull)
    case Arm(edge, pin, ok, okDebounce) =>
      if !d.isOpen || EdgeFlags(edge) == {} then d else
        var d' := ArmEdge(d, edge, pin, ok);
        if EdgeArmed(d, edge, ok) then d'.(line := LineSetDebounce(d'.line, d.debounce, okDebounce)) else d'
  }

  /** What `attachInterrupt` and `waitForInterrupt` make of arming the line. */
  predicate Armed(d: Dev, edge: Edge, pin: PinView, ok: bool, okDebounce: bool) {
    d.isOpen && EdgeArmed(d, edge, ok) &&
    LineSetDebounceResult(ArmEdge(d, edge, pin, ok).line, d.debounce, okDebounce)
  }

  function Run(d: Dev, ops: seq<Op>): Dev {
    if ops == [] then d else Step(Run(d, ops[..|ops| - 1]), ops[|ops| - 1])
  }

  const FRESH := Dev(false, ModeUnknown, PullUnknown, 0, -1, Line(false, ZEROED, [], ZEROED))

  // ---------------------------------------------------------------------------
  // Every configuration handed to the kernel is well formed
  // ---------------------------------------------------------------------------

  predicate Inv(d: Dev) {
    && (d.isOpen <==> d.line.isOpen)
    && (d.line.isOpen ==> WellFormed(d.line.config) && WellFormed(d.line.kernel))
    && forall c | c in d.line.handed :: WellFormed(c)
  }

  lemma StepKeepsInv(d: Dev, op: Op)
    requires Inv(d)
    ensures Inv(Step(d, op))
  {
    match op {
      case SetMode(m, ok) =>
        if d.isOpen && (m == ModeInput || m == ModeOutput) {
          ModeKeepsForm(d.line.config, m);
        }
      case SetPull(p, ok) =>
        if d.isOpen && p != PullUnknown {
          PullKeepsForm(d.line.config, p);
        }
      case Arm(edge, pin, ok, okDebounce) =>
        EdgesKeepForm(ConfigOf(d, pin), edge);
      case _ =>
    }
  }

  lemma {:induction false} RunKeepsInv(d: Dev, ops: seq<Op>)
    requires Inv(d)
    ensures Inv(Run(d, ops))
  {
    if ops != [] {
      RunKeepsInv(d, ops[..|ops| - 1]);
      StepKeepsInv(Run(d, ops[..|ops| - 1]), ops[|ops| - 1]);
    }
  }

  lemma {:induction false} HandedGrows(d: Dev, ops: seq<Op>)
    ensures d.line.handed <= Run(d, ops).line.handed
  {
    if ops != [] {
      HandedGrows(d, ops[..|ops| - 1]);
    }
  }

  /** In every run, whatever the kernel and the pin answer, each configuration has one direction and one bias. */
  lemma AlwaysWellFormed(ops: seq<Op>, c: LineConfig)
    requires c in Run(FRESH, ops).line.handed
    ensures OneDirection(c.flags) && OneBias(c.flags)
  {
    RunKeepsInv(FRESH, ops);
  }

  // ---------------------------------------------------------------------------
  // Mode and pull stick
  // ---------------------------------------------------------------------------

  predicate Configures(op: Op) {
    op.SetMode? || op.SetPull? || op.RefreshMode? || op.RefreshPull?
  }

  /** The device knows its mode and pull, and the line is configured for them. */
  predicate Settled(d: Dev, m: Mode, p: Pull) {
    && m in {ModeInput, ModeOutput} && p != PullUnknown
    && d.mode == m && d.pull == p && Inv(d)
    && (d.line.isOpen ==> HasDirection(d.line.config, m) && HasBias(d.line.config, p))
  }

  /** Setting the mode and then the pull, on a device in any state, settles it. */
  lemma SettingSettles(d: Dev, m: Mode, p: Pull, okMode: bool, okPull: bool)
    requires Inv(d) && m in {ModeInput, ModeOutput} && p != PullUnknown
    ensures Settled(Step(Step(d, SetMode(m, okMode)), SetPull(p, okPull)), m, p)
  {
    var d1 := Step(d, SetMode(m, okMode));
    StepKeepsInv(d, SetMode(m, okMode));
    StepKeepsInv(d1, SetPull(p, okPull));
    if d.isOpen {
      ModeKeepsForm(d.line.config, m);
      PullKeepsForm(d1.line.config, p);
    }
  }

  lemma SettledStep(d: Dev, op: Op, m: Mode, p: Pull)
    requires Settled(d, m, p) && !Configures(op)
    ensures Settled(Step(d, op), m, p)
    ensures d.line.handed <= Step(d, op).line.handed
    ensures forall c | c in Step(d, op).line.handed[|d.line.handed|..] :: HasDirection(c, m) && HasBias(c, p)
  {
    StepKeepsInv(d, op);
  }

  /**
   Once settled, every configuration handed to the kernel from then on has that direction and that bias: closing,
   reopening, arming and debouncing never lose them, whatever the kernel and the pin answer.
   */
  lemma {:induction false} SettingsStick(d: Dev, ops: seq<Op>, m: Mode, p: Pull)
    requires Settled(d, m, p) && forall op | op in ops :: !Configures(op)
    ensures Settled(Run(d, ops), m, p)
    ensures d.line.handed <= Run(d, ops).line.handed
    ensures forall c | c in Run(d, ops).line.handed[|d.line.handed|..] :: HasDirection(c, m) && HasBias(c, p)
  {
    if ops != [] {
      var n := |ops| - 1;
      var e := Run(d, ops[..n]);
      SettingsStick(d, ops[..n], m, p);
      SettledStep(e, ops[n], m, p);
      var a, b, c := d.line.handed, e.line.handed, Run(d, ops).line.handed;
      assert c[|a|..] == b[|a|..] + c[|b|..];
    }
  }

  // ---------------------------------------------------------------------------
  // Arming sets the debounce period
  // ---------------------------------------------------------------------------

  /**
   After an open line is armed successfully, the period the line reports and the period the kernel was given are
   the requested one, whatever slot 0 held before, exactly for periods that fit 32 bits in microseconds.
   */
  lemma ArmSetsDebounce(d: Dev, edge: Edge, pin: PinView, ok: bool, okDebounce: bool)
    requires Armed(d, edge, pin, ok, okDebounce)
    ensures var l := Step(d, Arm(edge, pin, ok, okDebounce)).line;
      && l.kernel == l.config
      && (LineDebounce(l.config) == d.debounce <==> d.debounce * 1000 < U32)
      && (KernelPeriod(l.kernel) == d.debounce * 1000 <==> d.debounce * 1000 < U32)
      && l.config.flags == ConfigOf(d, pin).flags + EdgeFlags(edge)
  {
    DebounceWraps(d.debounce);
  }

  /**
   `Line::setDebounce` on its own trusts slot 0: it does nothing, successfully, when the slot's low word reads as
   the requested period even though it is not a debounce attribute. It sets the period exactly otherwise.
   */
  lemma SetDebounceTrustsSlot(l: Line, ms: Word)
    requires l.isOpen && l.kernel == l.config && ms * 1000 < U32
    ensures LineSetDebounceResult(l, ms, true)
    ensures KernelPeriod(LineSetDebounce(l, ms, true).kernel) == ms * 1000
       <==> ms != LineDebounce(l.config) || KernelPeriod(l.config) == ms * 1000
  {
    DebounceWraps(ms);
  }

  /** What it puts into the configuration otherwise: the period in slot 0 on the line, or no attribute at all. */
  lemma DebounceReaches(l: Line, ms: Word, ok: bool)
    requires l.isOpen && ms != l.config.slot.low / 1000
    ensures var l' := LineSetDebounce(l, ms, ok);
      var c := l'.config;
      && l'.handed == l.handed + [c] && l'.kernel == (if ok then c else l.kernel) && l'.isOpen
      && c.flags == l.config.flags && c.slot.id == Debounce && c.slot.high == l.config.slot.high
      && (ms > 0 ==> c.numAttrs == 1 && c.slot.onLine0 && c.slot.low == ms * 1000 % 0x1_0000_0000)
      && (ms == 0 ==> c.numAttrs == 0 && !c.slot.onLine0 && c.slot.low == 0)
  {
  }

  /** For instance with initial output values 0x4E20 in the slot and 20 ms requested. */
  lemma SetDebounceMissed()
    ensures var l := Line(true, LineConfig({Output, BiasDisabled}, 1, Slot(OutputValues, 20000, 0, true)), [],
                          LineConfig({Output, BiasDisabled}, 1, Slot(OutputValues, 20000, 0, true)));
      LineSetDebounceResult(l, 20, true) && KernelPeriod(LineSetDebounce(l, 20, true).kernel) == 0
  {
  }

  // ---------------------------------------------------------------------------
  // What reaches the kernel
  // ---------------------------------------------------------------------------

  /** The flags name the direction and no other. */
  predicate DirectionIs(flags: set<Flag>, output: bool) {
    (Output in flags <==> output) && (Input in flags <==> !output)
  }

  /** The flags name the bias and no other. */
  predicate BiasIs(flags: set<Flag>, p: Pull) {
    && (BiasPullUp in flags <==> p == PullUp)
    && (BiasPullDown in flags <==> p == PullDown)
    && (BiasDisabled in flags <==> p != PullUp && p != PullDown)
  }

  /** The line has handed exactly one more configuration over, its own, and the kernel has it if it said so. */
  predicate HandedOne(l: Line, l': Line, ok: bool) {
    l'.handed == l.handed + [l'.config] && l'.kernel == if ok then l'.config else l.kernel
  }

  /** `setMode` on an open device hands over the old configuration with the new direction. */
  lemma SetModeReaches(d: Dev, m: Mode, ok: bool)
    requires Inv(d) && d.isOpen && (m == ModeInput || m == ModeOutput)
    ensures var d' := Step(d, SetMode(m, ok));
      var c, c' := d.line.config, d'.line.config;
      && HandedOne(d.line, d'.line, ok) && DirectionIs(c'.flags, m == ModeOutput)
      && (forall f | f != Input && f != Output :: f in c'.flags <==> f in c.flags)
      && c'.numAttrs == c.numAttrs && c'.slot == c.slot
      && d' == d.(mode := m, line := d'.line) && d'.line.isOpen
  {
  }

  lemma SetPullReaches(d: Dev, p: Pull, ok: bool)
    requires Inv(d) && d.isOpen && p != PullUnknown
    ensures var d' := Step(d, SetPull(p, ok));
      var c, c' := d.line.config, d'.line.config;
      && HandedOne(d.line, d'.line, ok) && BiasIs(c'.flags, p)
      && (forall f | f !in {BiasPullUp, BiasPullDown, BiasDisabled} :: f in c'.flags <==> f in c.flags)
      && c'.numAttrs == c.numAttrs && c'.slot == c.slot
      && d' == d.(pull := p, line := d'.line) && d'.line.isOpen
  {
  }

  /** On a closed device both are only remembered, and a mode or pull that cannot be set changes nothing. */
  lemma SettingsRemembered(d: Dev, m: Mode, p: Pull, ok: bool)
    ensures !d.isOpen && (m == ModeInput || m == ModeOutput) ==> Step(d, SetMode(m, ok)) == d.(mode := m)
    ensures !d.isOpen && p != PullUnknown ==> Step(d, SetPull(p, ok)) == d.(pull := p)
    ensures m != ModeInput && m != ModeOutput ==> Step(d, SetMode(m, ok)) == d
    ensures p == PullUnknown ==> Step(d, SetPull(p, ok)) == d
  {
  }

  /**
   `open` on a closed device hands over its mode, pull and stored level, or the pin's own where it has none; anything
   but input and output becomes a pulled-down input.
   */
  lemma OpenReaches(d: Dev, pin: PinView, ok: bool)
    requires Inv(d) && !d.isOpen
    ensures var d' := Step(d, Open(pin, true, ok));
      var c := d'.line.config;
      var m, p := if d.mode == ModeUnknown then pin.mode else d.mode, if d.pull == PullUnknown then pin.pull else d.pull;
      var level := if d.outputValue >= 0 then d.outputValue != 0 else pin.level;
      && HandedOne(d.line, d'.line, ok) && d' == d.(isOpen := ok, line := d'.line) && d'.line.isOpen == ok
      && EdgeRising !in c.flags && EdgeFalling !in c.flags && ActiveLow !in c.flags
      && DirectionIs(c.flags, m == ModeOutput)
      && (m == ModeInput || m == ModeOutput ==> BiasIs(c.flags, p))
      && (m != ModeInput && m != ModeOutput ==> BiasIs(c.flags, PullDown))
      && (m == ModeOutput ==> c.numAttrs == 1 && c.slot == Slot(OutputValues, if level then 1 else 0, 0, true))
      && (m != ModeOutput ==> c.numAttrs == 0)
  {
  }

  /** Opening does nothing twice, or without the chip; closing forgets the stored level and hands nothing over. */
  lemma OpenAndClose(d: Dev, pin: PinView, ok: bool)
    ensures d.isOpen ==> Step(d, Open(pin, true, ok)) == d
    ensures Step(d, Open(pin, false, ok)) == d
    ensures d.isOpen ==> Step(d, Close) == d.(isOpen := false, outputValue := -1, line := d.line.(isOpen := false))
    ensures !d.isOpen ==> Step(d, Close) == d
  {
  }

  /** A level written while closed is the one an output opens with; one written while open is not stored. */
  lemma WriteThenOpen(d: Dev, level: bool, pin: PinView, ok: bool)
    requires Inv(d) && !d.isOpen && d.mode == ModeOutput
    ensures Step(Step(d, Write(level)), Open(pin, true, ok)).line.config.slot
         == Slot(OutputValues, if level then 1 else 0, 0, true)
    ensures forall e: Dev | e.isOpen :: Step(e, Write(level)) == e
  {
    OpenReaches(Step(d, Write(level)), pin, ok);
  }

  /** What the kernel answers is what the device believes from then on. */
  lemma AnswersBelieved(d: Dev, info: set<Flag>)
    requires d.isOpen
    ensures var m := Step(d, RefreshMode(Some(info))).mode;
      && (Output in info ==> m == ModeOutput)
      && (Output !in info && Input in info ==> m == ModeInput)
      && (Output !in info && Input !in info ==> m == ModeDisabled)
    ensures var p := Step(d, RefreshPull(Some(info))).pull;
      && (BiasPullUp in info ==> p == PullUp)
      && (BiasPullUp !in info && BiasPullDown in info ==> p == PullDown)
      && (BiasPullUp !in info && BiasPullDown !in info && BiasDisabled in info ==> p == PullOff)
      && (BiasPullUp !in info && BiasPullDown !in info && BiasDisabled !in info ==> p == d.pull)
    ensures Step(d, RefreshMode(None)) == d && Step(d, RefreshPull(None)) == d
  {
  }

  /** Arming without an edge hands nothing over, and arming changes nothing but the line. */
  lemma ArmTouchesLine(d: Dev, edge: Edge, pin: PinView, ok: bool, okDebounce: bool)
    ensures var d' := Step(d, Arm(edge, pin, ok, okDebounce));
      d' == d.(line := d'.line) && (!d.isOpen || edge == EdgeNone || edge == EdgeUnknown ==> d' == d)
  {
  }

  /** Otherwise an open device first hands over the configuration it would open with, and the edges asked for. */
  lemma ArmReaches(d: Dev, edge: Edge, pin: PinView, ok: bool, okDebounce: bool)
    requires Inv(d) && d.isOpen && edge != EdgeNone && edge != EdgeUnknown
    ensures var handed, n := Step(d, Arm(edge, pin, ok, okDebounce)).line.handed, |d.line.handed|;
      && |handed| > n && handed[..n] == d.line.handed
      && (EdgeRising in handed[n].flags <==> edge == RisingEdge || edge == BothEdges)
      && (EdgeFalling in handed[n].flags <==> edge == FallingEdge || edge == BothEdges)
      && (forall f | f != EdgeRising && f != EdgeFalling :: f in handed[n].flags <==> f in ConfigOf(d, pin).flags)
  {
  }

  /** Then, if the kernel took that and there is a debounce period, one with the period in slot 0, and no more. */
  lemma ArmDebounceReaches(d: Dev, edge: Edge, pin: PinView, ok: bool, okDebounce: bool)
    requires Inv(d) && d.isOpen && edge != EdgeNone && edge != EdgeUnknown
    ensures var handed, n := Step(d, Arm(edge, pin, ok, okDebounce)).line.handed, |d.line.handed|;
      && |handed| == n + (if ok && d.debounce != 0 then 2 else 1)
      && (ok && d.debounce != 0 ==>
            && handed[n + 1].flags == handed[n].flags && handed[n + 1].numAttrs == 1
            && handed[n + 1].slot.id == Debounce && handed[n + 1].slot.onLine0
            && handed[n + 1].slot.low == d.debounce * 1000 % 0x1_0000_0000)
  {
  }

  /** The kernel's answers to the operation are yes. */
  predicate Accepted(op: Op) {
    match op
    case Open(_, _, ok) => ok
    case SetMode(_, ok) => ok
    case SetPull(_, ok) => ok
    case Arm(_, _, ok, okDebounce) => ok && okDebounce
    case _ => true
  }

  predicate InSync(d: Dev) {
    d.isOpen ==> d.line.kernel == d.line.config
  }

  /** In every run whose answers are all yes, the kernel has what the line believes as long as the device is open. */
  lemma {:induction false} KernelFollows(ops: seq<Op>)
    requires forall op | op in ops :: Accepted(op)
    ensures InSync(Run(FRESH, ops))
  {
    if ops != [] {
      var n := |ops| - 1;
      assert ops[n] in ops;
      KernelFollows(ops[..n]);
      RunKeepsInv(FRESH, ops[..n]);
    }
  }
}

/** `GpioDev2` and `Gpio2::Line` as objects updated in place, proved against the runs above. */
module GpioDev2 {
  import opened Bytes
  import opened GpioConfig
  import opened GpioRuns

  class GpioLine {
    var isOpen: bool
    var config: LineConfig
    ghost var handed: seq<LineConfig>
    ghost var kernel: LineConfig

    ghost function State(): Line
      reads this
    {
      Line(isOpen, config, handed, kernel)
    }

    constructor ()
      ensures State() == FRESH.line
    {
      isOpen, config, handed, kernel := false, ZEROED, [], ZEROED;
    }

    /** The ioctl: the kernel takes the configuration or not. */
    ghost method Hand(c: LineConfig, ok: bool)
      modifies this`handed, this`kernel
      ensures handed == old(handed) + [c] && kernel == if ok then c else old(kernel)
    {
      handed := handed + [c];
      if ok {
        kernel := c;
      }
    }

    method Open(c: LineConfig, ok: bool) returns (success: bool)
      modifies this
      ensures State() == LineOpen(old(State()), c, ok)
      ensures success == isOpen
    {
      if !isOpen {
        config := c;
        Hand(config, ok);
        isOpen := ok;
      }
      return isOpen;
    }

    method SetConfig(c: LineConfig, ok: bool) returns (done: bool)
      modifies this
      ensures State() == LineSetConfig(old(State()), c, ok)
      ensures done == (isOpen && ok)
    {
      config := c;
      if isOpen {
        Hand(c, ok);
        return ok;
      }
      return false;
    }

    method SetDebounce(ms: Word, ok: bool) returns (done: bool)
      modifies this
      ensures State() == LineSetDebounce(old(State()), ms, ok)
      ensures done == LineSetDebounceResult(old(State()), ms, ok)
    {
      if ms != config.slot.low / 1000 {
        var cfg := config;
        if ms > 0 {
          cfg := cfg.(slot := cfg.slot.(id := Debounce, low := (ms * 1000) % U32, onLine0 := true), numAttrs := 1);
        } else {
          cfg := cfg.(slot := cfg.slot.(id := Debounce, low := 0, onLine0 := false), numAttrs := 0);
        }
        done := SetConfig(cfg, ok);
        return;
      }
      return true;
    }

    method Close()
      modifies this
      ensures State() == old(State()).(isOpen := false)
    {
      isOpen := false;
    }
  }

  class Device {
    const line: GpioLine
    var isOpen: bool
    var mode: Mode
    var pull: Pull
    var debounce: Word
    var outputValue: int

    ghost function State(): Dev
      reads this, line
    {
      Dev(isOpen, mode, pull, debounce, outputValue, line.State())
    }

    constructor ()
      ensures State() == FRESH && fresh(line)
    {
      line := new GpioLine();
      isOpen, mode, pull, debounce, outputValue := false, ModeUnknown, PullUnknown, 0, -1;
    }

    method DoOpen(pin: PinView, chipOpen: bool, ok: bool) returns (success: bool)
      modifies this, line
      ensures State() == Step(old(State()), Open(pin, chipOpen, ok))
      ensures success == isOpen
    {
      if !isOpen && chipOpen {
        success := line.Open(PinConfig(mode, pull, outputValue, pin), ok);
        isOpen := success;
        return;
      }
      return isOpen;
    }

    method DoClose()
      modifies this, line
      ensures State() == Step(old(State()), Close)
    {
      if isOpen {
        line.Close();
        outputValue := -1;
        isOpen := false;
      }
    }

    /** `setMode`: throws, changing nothing, on a mode that is neither input nor output. */
    method DoSetMode(m: Mode, ok: bool) returns (thrown: bool)
      modifies this, line
      ensures State() == Step(old(State()), SetMode(m, ok))
      ensures thrown <==> m != ModeInput && m != ModeOutput
    {
      if m != ModeInput && m != ModeOutput {
        return true;
      }
      mode := m;
      if isOpen {
        var config := line.config;
        if m == ModeInput {
          config := config.(flags := config.flags + {Input});
          config := config.(flags := config.flags - {Output});
        } else {
          config := config.(flags := config.flags + {Output});
          config := config.(flags := config.flags - {Input});
        }
        var _ := line.SetConfig(config, ok);
      }
      return false;
    }

    method DoSetPull(p: Pull, ok: bool) returns (thrown: bool)
      modifies this, line
      ensures State() == Step(old(State()), SetPull(p, ok))
      ensures thrown <==> p == PullUnknown
    {
      if p == PullUnknown {
        return true;
      }
      pull := p;
      if isOpen {
        var config := line.config;
        match p {
          case PullUp =>
            config := config.(flags := config.flags + {BiasPullUp} - {BiasPullDown, BiasDisabled});
          case PullDown =>
            config := config.(flags := config.flags + {BiasPullDown} - {BiasPullUp, BiasDisabled});
          case PullOff =>
            config := config.(flags := config.flags + {BiasDisabled} - {BiasPullUp, BiasPullDown});
        }
        assert config.flags == WithPull(line.config, p).flags;
        var _ := line.SetConfig(config, ok);
      }
      return false;
    }

    method DoSetDebounce(ms: Word)
      modifies this
      ensures State() == Step(old(State()), SetDebounce(ms))
    {
      debounce := ms;
    }

    /** `write` on a closed device is kept for the next open. */
    method DoWrite(level: bool)
      modifies this
      ensures State() == Step(old(State()), Write(level))
    {
      if !isOpen {
        outputValue := if level then 1 else 0;
      }
    }

    /** `mode()`: asks the kernel, when open, and remembers the answer if there is one. */
    method GetMode(info: Option<set<Flag>>) returns (m: Mode)
      modifies this
      ensures State() == Step(old(State()), RefreshMode(info)) && m == mode
    {
      if isOpen && info.Some? {
        if Output in info.value {
          mode := ModeOutput;
        } else if Input in info.value {
          mode := ModeInput;
        } else {
          mode := ModeDisabled;
        }
      }
      return mode;
    }

    /** `pull()`, likewise; an answer without a bias flag leaves it as it was. */
    method GetPull(info: Option<set<Flag>>) returns (p: Pull)
      modifies this
      ensures State() == Step(old(State()), RefreshPull(info)) && p == pull
    {
      if isOpen && info.Some? {
        if BiasPullUp in info.value {
          pull := PullUp;
        } else if BiasPullDown in info.value {
          pull := PullDown;
        } else if BiasDisabled in info.value {
          pull := PullOff;
        }
      }
      return pull;
    }

    method SetPinEdge(edge: Edge, pin: PinView, ok: bool) returns (done: bool)
      modifies line
      ensures State() == if EdgeFlags(edge) == {} then old(State()) else ArmEdge(old(State()), edge, pin, ok)
      ensures done <==> EdgeArmed(old(State()), edge, ok)
    {
      var config := PinConfig(mode, pull, outputValue, pin);
      match edge {
        case RisingEdge => config := config.(flags := config.flags + {EdgeRising});
        case FallingEdge => config := config.(flags := config.flags + {EdgeFalling});
        case BothEdges => config := config.(flags := config.flags + {EdgeFalling, EdgeRising});
        case _ => return false;
      }
      assert config == ConfigOf(State(), pin).(flags := ConfigOf(State(), pin).flags + EdgeFlags(edge));
      done := line.SetConfig(config, ok);
    }

    /** The arming part of `attachInterrupt` and `waitForInterrupt`. */
    method DoArm(edge: Edge, pin: PinView, ok: bool, okDebounce: bool) returns (armed: bool)
      modifies line
      ensures State() == Step(old(State()), Arm(edge, pin, ok, okDebounce))
      ensures armed <==> Armed(old(State()), edge, pin, ok, okDebounce)
    {
      if isOpen {
        armed := SetPinEdge(edge, pin, ok);
        ghost var d' := State();
        if armed {
          armed := line.SetDebounce(debounce, okDebounce);
          assert State() == d'.(line := LineSetDebounce(d'.line, debounce, okDebounce));
        }
        return;
      }
      return false;
    }

    /** One operation of a run. */
    method Perform(op: Op)
      modifies this, line
      ensures State() == Step(old(State()), op)
    {
      match op {
        case Open(pin, chipOpen, ok) => var _ := DoOpen(pin, chipOpen, ok);
        case Close => DoClose();
        case SetMode(m, ok) => var _ := DoSetMode(m, ok);
        case SetPull(p, ok) => var _ := DoSetPull(p, ok);
        case SetDebounce(ms) => DoSetDebounce(ms);
        case Write(level) => DoWrite(level);
        case RefreshMode(info) => var _ := GetMode(info);
        case RefreshPull(info) => var _ := GetPull(info);
        case Arm(edge, pin, ok, okDebounce) => var _ := DoArm(edge, pin, ok, okDebounce);
      }
    }

    /**
     Whatever is done with a device, each configuration its line has handed to the kernel has exactly one direction
     and one bias; and if none of it sets or asks for the mode or the pull, those it was settled on.
     */
    method Replay(ops: seq<Op>)
      requires Inv(State())
      modifies this, line
      ensures State() == Run(old(State()), ops) && Inv(State())
      ensures forall c | c in line.handed :: OneDirection(c.flags) && OneBias(c.flags)
      ensures old(line.handed) <= line.handed
      ensures forall m, p | Settled(old(State()), m, p) && (forall op | op in ops :: !Configures(op)) ::
        forall c | c in line.handed[|old(line.handed)|..] :: HasDirection(c, m) && HasBias(c, p)
    {
      ghost var d := State();
      for k := 0 to |ops|
        invariant State() == Run(d, ops[..k])
      {
        assert ops[..k + 1][..k] == ops[..k];
        Perform(ops[k]);
      }
      assert ops[..|ops|] == ops;
      RunKeepsInv(d, ops);
      HandedGrows(d, ops);
      forall m, p | Settled(d, m, p) && (forall op | op in ops :: !Configures(op))
        ensures forall c | c in line.handed[|d.line.handed|..] :: HasDirection(c, m) && HasBias(c, p)
      {
        SettingsStick(d, ops, m, p);
      }
    }
  }
}
