/** Reload value of the 9600 Hz sample timer (TIM3).

    The timer runs from the APB1 timer clock with no prescaler. It overflows every
    `period` clock cycles, where `period` is the clock divided by 9600, rounded to
    nearest. All arithmetic is on 32-bit unsigned integers, so it wraps. */
module SampleTimer {

  const U32_LIMIT: int := 0x1_0000_0000

  /** A `uint32_t` value. */
  type U32 = x: int | 0 <= x < U32_LIMIT

  /** Sample rate of the AFSK modulator, in Hz. */
  const SAMPLE_RATE: nat := 9600

  /** The APB1 prescaler setting: the five divisors the vendor clock configuration
      writes to the PPRE1 field of RCC_CFGR. The field has eight encodings, and
      0b000 to 0b011 all mean "not divided"; only 0b000 is `Div1` here. Since the
      code doubles the clock whenever the field differs from its DIV1 encoding, the
      other three undivided encodings, which the vendor library never writes, are
      not modelled. */
  datatype Apb1Prescaler = Div1 | Div2 | Div4 | Div8 | Div16

  /** Sum of two 32-bit unsigned values, wrapping. */
  function AddU32(a: U32, b: U32): (r: U32)
    ensures a + b < U32_LIMIT ==> r == a + b
    ensures a + b >= U32_LIMIT ==> r == a + b - U32_LIMIT
  {
    (a + b) % U32_LIMIT
  }

  /** The timer clock: the APB1 clock, doubled whenever APB1 is divided down
      (the STM32 clock-tree rule the code follows). */
  function TimerClock(pclk1: U32, ppre1: Apb1Prescaler): (c: U32)
    ensures ppre1 == Div1 ==> c == pclk1
    ensures ppre1 != Div1 && pclk1 < U32_LIMIT / 2 ==> c == 2 * pclk1
    ensures ppre1 != Div1 ==> c == (2 * pclk1) % U32_LIMIT
  {
    if ppre1 != Div1 then AddU32(pclk1, pclk1) else pclk1
  }

  /** Distance between `q` timer periods of 9600 Hz and the clock, in cycles per second. */
  function Error(q: nat, timClk: nat): nat
  {
    if q * SAMPLE_RATE >= timClk then q * SAMPLE_RATE - timClk else timClk - q * SAMPLE_RATE
  }

  /** Cycles per sample: `(tim_clk + 4800) / 9600`, at least 1. Unless the sum
      wraps, it is the whole number of cycles that comes closest to 9600 Hz, and
      within half a sample-rate step of the clock once the clock reaches 4800 Hz.
      When two periods are equally near, the rounding picks the longer one. */
  function Period(timClk: U32): (p: U32)
    ensures p >= 1
    ensures timClk + SAMPLE_RATE / 2 < U32_LIMIT ==> forall q: nat | q >= 1 :: Error(p, timClk) <= Error(q, timClk)
    ensures timClk + SAMPLE_RATE / 2 < U32_LIMIT && timClk >= SAMPLE_RATE / 2 ==> Error(p, timClk) <= SAMPLE_RATE / 2
    ensures timClk + SAMPLE_RATE / 2 < U32_LIMIT ==> forall q: nat | q >= 1 && Error(q, timClk) == Error(p, timClk) :: q <= p
  {
    var rounded := AddU32(timClk, SAMPLE_RATE / 2) / SAMPLE_RATE;
    var p := if rounded < 1 then 1 else rounded;
    if timClk + SAMPLE_RATE / 2 < U32_LIMIT then NearestPeriod(timClk, p); p else p
  }

  /** The rounded quotient beats every other positive period, and on a tie it is
      the longer of the two. */
  lemma NearestPeriod(timClk: nat, p: nat)
    requires p == if (timClk + 4800) / 9600 < 1 then 1 else (timClk + 4800) / 9600
    ensures forall q: nat | q >= 1 :: Error(p, timClk) <= Error(q, timClk)
    ensures timClk >= 4800 ==> Error(p, timClk) <= 4800
    ensures forall q: nat | q >= 1 && Error(q, timClk) == Error(p, timClk) :: q <= p
  {
    if timClk >= 4800 {
      assert p * 9600 <= timClk + 4800 < p * 9600 + 9600;
    } else {
      assert p == 1;
    }
    forall q: nat | q >= 1 ensures Error(p, timClk) <= Error(q, timClk) {
      if q > p {
        assert q * 9600 >= p * 9600 + 9600;
      } else if q < p {
        assert q * 9600 <= p * 9600 - 9600;
      }
    }
  }

  /** Largest value TIM3's 16-bit auto-reload register holds. */
  const ARR_MAX: nat := 0xFFFF

  /** The value written to `Init.Period`, for the auto-reload register: one less
      than the period, since the counter runs from 0 to the reload value inclusive.
      The subtraction cannot go below zero, and reload+1 is the whole number of
      timer cycles closest to 1/9600 s. That is the interrupt interval only while
      the value fits the 16-bit register, which holds exactly for timer clocks
      below 629,150,400 Hz. */
  function AutoReload(pclk1: U32, ppre1: Apb1Prescaler): (arr: U32)
    ensures TimerClock(pclk1, ppre1) + SAMPLE_RATE / 2 < U32_LIMIT ==>
      forall q: nat | q >= 1 :: Error(arr + 1, TimerClock(pclk1, ppre1)) <= Error(q, TimerClock(pclk1, ppre1))
    ensures TimerClock(pclk1, ppre1) + SAMPLE_RATE / 2 < U32_LIMIT ==>
      forall q: nat | q >= 1 && Error(q, TimerClock(pclk1, ppre1)) == Error(arr + 1, TimerClock(pclk1, ppre1)) :: q <= arr + 1
    ensures TimerClock(pclk1, ppre1) + SAMPLE_RATE / 2 < U32_LIMIT ==>
      (arr <= ARR_MAX <==> TimerClock(pclk1, ppre1) < 629_150_400)
  {
    Period(TimerClock(pclk1, ppre1)) - 1
  }

  /** The board runs from the 16 MHz internal oscillator with APB1 undivided: the
      reload value is 1666, an interrupt every 1667 cycles (about 9598 Hz). */
  lemma ConfiguredReload()
    ensures AutoReload(16_000_000, Div1) == 1666
    ensures Error(1667, 16_000_000) < Error(1666, 16_000_000)
  {
  }
}
