/** The four-bit parallel DAC that carries the AFSK waveform.

    Four GPIO pins (LSB, BIT_1, BIT_2, MSB) form a resistor-ladder DAC. The firmware
    assumes all four are on port A, and so does this model: there is one output
    register, and both the fast writer's store to `GPIOA` and the per-pin writes to
    each pin's own port act on it.
    A sample code is written with a single store to the port's bit set/reset register
    (BSRR): its low half-word sets pins, its high half-word resets them. The words are
    precomputed for all sixteen codes. The pin numbers come from a board header that is
    not part of this model, so they are parameters here. */
module Dac {

  /** A sample code as the firmware passes it: an unsigned 8-bit value. */
  type Code = bv8

  /** A 32-bit BSRR word, modelled as its two 16-bit halves, each the set of
      pin numbers whose bit is one: `lo` holds bits 0..15 (set), `hi` bits 16..31
      (reset). A pin mask is `Word({p}, {})`. */
  datatype Word = Word(lo: set<nat>, hi: set<nat>)
  {
    /** Bitwise OR. */
    function Or(other: Word): Word
    {
      Word(lo + other.lo, hi + other.hi)
    }

    /** Left shift by 16 in 32 bits: the low half moves up, the high half falls off.
        For pin 15 the C shift overflows a signed `int`; the model takes the
        two's-complement result, bit 31. */
    function Shl16(): Word
    {
      Word({}, lo)
    }
  }

  /** The all-zero word. */
  const Zero := Word({}, {})

  /** The mask of one pin. */
  function PinMask(p: nat): Word
  {
    Word({p}, {})
  }

  /** The pin numbers of the four DAC bits, least significant first. */
  datatype DacPins = DacPins(lsb: nat, bit1: nat, bit2: nat, msb: nat)
  {
    /** The pin that drives DAC bit `i`. */
    function Pin(i: nat): nat
      requires i < 4
    {
      if i == 0 then lsb else if i == 1 then bit1 else if i == 2 then bit2 else msb
    }

    /** Every DAC pin. */
    function All(): set<nat>
    {
      {lsb, bit1, bit2, msb}
    }
  }

  /** What the board header must provide: four different pins of one 16-pin port.
      A pin mask is a single bit below bit 16 because it is `PinMask(p)` with `p < 16`. */
  predicate ValidPins(pins: DacPins)
  {
    && pins.lsb < 16 && pins.bit1 < 16 && pins.bit2 < 16 && pins.msb < 16
    && pins.lsb != pins.bit1 && pins.lsb != pins.bit2 && pins.lsb != pins.msb
    && pins.bit1 != pins.bit2 && pins.bit1 != pins.msb
    && pins.bit2 != pins.msb
  }

  /** The mask of bit `i` of a sample code. */
  function Weight(i: nat): Code
    requires i < 4
  {
    if i == 0 then 0x01 else if i == 1 then 0x02 else if i == 2 then 0x04 else 0x08
  }

  /** Bit `i` of sample code `v` is one. */
  predicate CodeBit(v: Code, i: nat)
    requires i < 4
  {
    v & Weight(i) != 0
  }

  /** The set mask for code `v`: the pins of the code's one bits, in the low half. */
  function SetMask(pins: DacPins, v: Code): (m: Word)
    ensures m.hi == {}
    ensures m.lo <= pins.All()
    ensures ValidPins(pins) ==> forall i: nat | i < 4 :: pins.Pin(i) in m.lo <==> CodeBit(v, i)
  {
    (if v & 0x01 != 0 then PinMask(pins.lsb) else Zero)
      .Or(if v & 0x02 != 0 then PinMask(pins.bit1) else Zero)
      .Or(if v & 0x04 != 0 then PinMask(pins.bit2) else Zero)
      .Or(if v & 0x08 != 0 then PinMask(pins.msb) else Zero)
  }

  /** The reset mask for code `v`: the pins of the code's zero bits, shifted into
      the high half. */
  function ResetMask(pins: DacPins, v: Code): (m: Word)
    ensures m.lo == {}
    ensures m.hi <= pins.All()
    ensures ValidPins(pins) ==> forall i: nat | i < 4 :: pins.Pin(i) in m.hi <==> !CodeBit(v, i)
  {
    (if v & 0x01 != 0 then Zero else PinMask(pins.lsb).Shl16())
      .Or(if v & 0x02 != 0 then Zero else PinMask(pins.bit1).Shl16())
      .Or(if v & 0x04 != 0 then Zero else PinMask(pins.bit2).Shl16())
      .Or(if v & 0x08 != 0 then Zero else PinMask(pins.msb).Shl16())
  }

  /** The two precomputed tables, indexed by sample code. */
  datatype MaskTables = MaskTables(setMasks: seq<Word>, resetMasks: seq<Word>)
  {
    predicate WellFormed()
    {
      |setMasks| == 16 && |resetMasks| == 16
    }
  }

  /** The tables hold, for each code, the set and reset masks of that code. */
  predicate TablesFor(t: MaskTables, pins: DacPins)
  {
    && t.WellFormed()
    && forall v: nat | v < 16 :: t.setMasks[v] == SetMask(pins, v as Code) && t.resetMasks[v] == ResetMask(pins, v as Code)
  }

  /** The masks of one code, built pin by pin as the start-up loop body does. */
  method CodeMasks(pins: DacPins, code: Code) returns (setMask: Word, resetMask: Word)
    ensures setMask == SetMask(pins, code) && resetMask == ResetMask(pins, code)
  {
    setMask := Zero;
    resetMask := Zero;
    if code & 0x01 != 0 { setMask := setMask.Or(PinMask(pins.lsb)); } else { resetMask := resetMask.Or(PinMask(pins.lsb).Shl16()); }
    if code & 0x02 != 0 { setMask := setMask.Or(PinMask(pins.bit1)); } else { resetMask := resetMask.Or(PinMask(pins.bit1).Shl16()); }
    if code & 0x04 != 0 { setMask := setMask.Or(PinMask(pins.bit2)); } else { resetMask := resetMask.Or(PinMask(pins.bit2).Shl16()); }
    if code & 0x08 != 0 { setMask := setMask.Or(PinMask(pins.msb)); } else { resetMask := resetMask.Or(PinMask(pins.msb).Shl16()); }
  }

  /** Fills both tables, one code at a time, as the start-up routine does. */
  method PrecomputeMasks(pins: DacPins) returns (t: MaskTables)
    ensures TablesFor(t, pins)
  {
    var setMasks: seq<Word> := [];
    var resetMasks: seq<Word> := [];
    var v: nat := 0;
    while v < 16
      invariant v <= 16
      invariant |setMasks| == v && |resetMasks| == v
      invariant forall k: nat | k < v :: setMasks[k] == SetMask(pins, k as Code) && resetMasks[k] == ResetMask(pins, k as Code)
    {
      var setMask, resetMask := CodeMasks(pins, v as Code);
      setMasks := setMasks + [setMask];
      resetMasks := resetMasks + [resetMask];
      v := v + 1;
    }
    t := MaskTables(setMasks, resetMasks);
  }

  /** The table index the fast writer uses: the low nibble of the code. */
  function Index(v: Code): (k: nat)
    ensures k < 16
    ensures k == v as int % 16
  {
    (v & 0x0F) as int
  }

  /** The BSRR word the fast writer stores for code `v`, read from tables built for
      `pins`: whatever the high nibble, it is the set mask OR the reset mask of `v`. */
  function Write4(pins: DacPins, t: MaskTables, v: Code): (w: Word)
    requires TablesFor(t, pins)
    ensures w == SetMask(pins, v).Or(ResetMask(pins, v))
  {
    TableEntryOfCode(pins, t, v);
    t.setMasks[Index(v)].Or(t.resetMasks[Index(v)])
  }

  /** Effect of one store to BSRR on the port's output register (the set of pins
      driven high), per the STM32 GPIO register description: a one in the high half
      clears that pin, a one in the low half sets it, and a pin named in both halves
      ends up set. */
  function ApplyBsrr(odr: set<nat>, w: Word): (r: set<nat>)
    ensures forall p :: p in r <==> p in w.lo || (p in odr && p !in w.hi)
  {
    (odr - w.hi) + w.lo
  }

  /** The DAC code the output register presents on the four pins. */
  function DacLevel(pins: DacPins, odr: set<nat>): Code
  {
    (if pins.lsb in odr then 0x01 else 0)
    | (if pins.bit1 in odr then 0x02 else 0)
    | (if pins.bit2 in odr then 0x04 else 0)
    | (if pins.msb in odr then 0x08 else 0)
  }

  /** The output register after the fast writer has stored the word for `v`:
      the DAC shows the low nibble of `v` and no other pin changes. */
  function DriveDac(pins: DacPins, t: MaskTables, odr: set<nat>, v: Code): (r: set<nat>)
    requires ValidPins(pins) && TablesFor(t, pins)
    ensures DacLevel(pins, r) == v & 0x0F
    ensures r - pins.All() == odr - pins.All()
  {
    var r := ApplyBsrr(odr, Write4(pins, t, v));
    LevelOfCode(pins, r, v);
    r
  }

  /** The table entries at the fast writer's index are the masks of the code
      itself, whatever its high nibble. */
  lemma TableEntryOfCode(pins: DacPins, t: MaskTables, v: Code)
    requires TablesFor(t, pins)
    ensures t.setMasks[Index(v)] == SetMask(pins, v) && t.resetMasks[Index(v)] == ResetMask(pins, v)
  {
    var k := Index(v);
    assert k as Code == v & 0x0F;
    assert t.setMasks[k] == SetMask(pins, v & 0x0F) && t.resetMasks[k] == ResetMask(pins, v & 0x0F);
    assert v & 0x0F & 0x01 == v & 0x01 && v & 0x0F & 0x02 == v & 0x02;
    assert v & 0x0F & 0x04 == v & 0x04 && v & 0x0F & 0x08 == v & 0x08;
  }

  /** A register whose DAC pins follow the bits of `v` presents the low nibble of `v`. */
  lemma LevelOfCode(pins: DacPins, odr: set<nat>, v: Code)
    requires forall i: nat | i < 4 :: pins.Pin(i) in odr <==> CodeBit(v, i)
    ensures DacLevel(pins, odr) == v & 0x0F
  {
    assert pins.Pin(0) in odr <==> CodeBit(v, 0);
    assert pins.Pin(1) in odr <==> CodeBit(v, 1);
    assert pins.Pin(2) in odr <==> CodeBit(v, 2);
    assert pins.Pin(3) in odr <==> CodeBit(v, 3);
  }

  /** One call of the vendor library's pin writer: a BSRR store of the pin mask (high)
      or of the pin mask shifted into the reset half (low). */
  function WritePin(odr: set<nat>, pin: nat, high: bool): set<nat>
  {
    ApplyBsrr(odr, if high then PinMask(pin) else PinMask(pin).Shl16())
  }

  /** The alternative, per-pin writer: four separate pin writes, bit i taken as `(v >> i) & 1`. */
  function SlowWrite4(pins: DacPins, odr: set<nat>, v: Code): (r: set<nat>)
    ensures ValidPins(pins) ==> DacLevel(pins, r) == v & 0x0F
    ensures r - pins.All() == odr - pins.All()
  {
    var o0 := WritePin(odr, pins.lsb, (v >> 0) & 1 == 1);
    var o1 := WritePin(o0, pins.bit1, (v >> 1) & 1 == 1);
    var o2 := WritePin(o1, pins.bit2, (v >> 2) & 1 == 1);
    WritePin(o2, pins.msb, (v >> 3) & 1 == 1)
  }

  /** The start-up writes that put the DAC at mid-scale: LSB, BIT_1, BIT_2 low, MSB high. */
  function InitMidScale(pins: DacPins, odr: set<nat>): (r: set<nat>)
    ensures ValidPins(pins) ==> DacLevel(pins, r) == 8
    ensures r - pins.All() == odr - pins.All()
  {
    var o0 := WritePin(odr, pins.lsb, false);
    var o1 := WritePin(o0, pins.bit1, false);
    var o2 := WritePin(o1, pins.bit2, false);
    WritePin(o2, pins.msb, true)
  }

  /** Codes 16..255 are written exactly like their low nibble. */
  lemma Write4LowNibble(pins: DacPins, t: MaskTables, v: Code)
    requires TablesFor(t, pins)
    ensures Write4(pins, t, v) == Write4(pins, t, v & 0x0F)
    ensures Write4(pins, t, v) == t.setMasks[v as int % 16].Or(t.resetMasks[v as int % 16])
  {
  }

  /** In one BSRR word, each DAC pin is named exactly once: in the set half when its
      code bit is one, in the reset half when it is zero. */
  lemma EachPinDrivenOnce(pins: DacPins, t: MaskTables, v: Code, i: nat)
    requires ValidPins(pins) && TablesFor(t, pins) && i < 4
    ensures (pins.Pin(i) in Write4(pins, t, v).lo) != (pins.Pin(i) in Write4(pins, t, v).hi)
    ensures pins.Pin(i) in Write4(pins, t, v).lo <==> CodeBit(v, i)
  {
  }

  /** The single fast store leaves the port exactly as the four per-pin writes would. */
  lemma FastMatchesSlow(pins: DacPins, t: MaskTables, odr: set<nat>, v: Code)
    requires ValidPins(pins) && TablesFor(t, pins)
    ensures DriveDac(pins, t, odr, v) == SlowWrite4(pins, odr, v)
  {
  }

  /** Code 8 sets only MSB and resets the other three pins, which is the mid-scale
      state the start-up writes establish. */
  lemma MidScaleIsCode8(pins: DacPins, t: MaskTables, odr: set<nat>)
    requires ValidPins(pins) && TablesFor(t, pins)
    ensures SetMask(pins, 8) == PinMask(pins.msb)
    ensures ResetMask(pins, 8) == Word({}, {pins.lsb, pins.bit1, pins.bit2})
    ensures InitMidScale(pins, odr) == DriveDac(pins, t, odr, 8)
    ensures DacLevel(pins, InitMidScale(pins, odr)) == 8
  {
    assert t.setMasks[8] == SetMask(pins, 8) && t.resetMasks[8] == ResetMask(pins, 8);
  }
}
