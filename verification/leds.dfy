/**
  The board LED driver of the AVRISP mk II with Serial (Board/LEDs.h).

  Six logical LEDs are addressed through one byte mask. The four status LEDs
  (bits 0..3 of the mask) are wired to the high nibble of PORTF, so their mask
  bits are shifted left by four; the RX and TX LEDs (bits 5 and 4) sit on the
  same bit numbers of PORTB. Every driver operation is a read-modify-write of
  the two output registers. The C code computes `~x` on a promoted int and
  stores the low byte back into the 8-bit port, which is exactly `!x` on `bv8`.
*/
module Leds {

  // Logical LED bits.
  const LEDS_NOT_RDY: bv8 := 0x08
  const LEDS_RDY: bv8 := 0x04
  const LEDS_ERR: bv8 := 0x02
  const LEDS_ACT: bv8 := 0x01
  const LEDS_RX: bv8 := 0x20
  const LEDS_TX: bv8 := 0x10

  // LED masks used by the application.
  const LEDMASK_USB_NOTREADY: bv8 := LEDS_NOT_RDY
  const LEDMASK_USB_ENUMERATING: bv8 := LEDS_NOT_RDY | LEDS_ACT
  const LEDMASK_USB_READY: bv8 := LEDS_RDY
  const LEDMASK_USB_ERROR: bv8 := LEDS_ERR
  const LEDMASK_BUSY: bv8 := LEDS_RDY | LEDS_ACT
  const LEDMASK_RX: bv8 := LEDS_RX | LEDS_ACT
  const LEDMASK_TX: bv8 := LEDS_TX | LEDS_ACT

  // Which logical LEDs live on which port, and the port pins they occupy.
  const PORTF_MASK: bv8 := LEDS_NOT_RDY | LEDS_RDY | LEDS_ERR | LEDS_ACT
  const PORTB_MASK: bv8 := LEDS_RX | LEDS_TX
  const ALL_MASK: bv8 := PORTF_MASK | PORTB_MASK
  const PORTF_ALL_PORTS: bv8 := PORTF_MASK << 4
  const PORTB_ALL_PORTS: bv8 := PORTB_MASK

  /** Direction and output registers of the two ports that carry LEDs. */
  datatype LedPorts = LedPorts(ddrF: bv8, portF: bv8, ddrB: bv8, portB: bv8)

  /** The PORTF pins that drive the logical LEDs of `m`. */
  function PortFPins(m: bv8): bv8
  {
    (m & PORTF_MASK) << 4
  }

  /** The PORTB pins that drive the logical LEDs of `m`. */
  function PortBPins(m: bv8): bv8
  {
    m & PORTB_MASK
  }

  /** The logical LED mask currently driven on the two ports (the abstraction of the pins). */
  function Shown(p: LedPorts): bv8
  {
    ShownOn(p.portF, p.portB)
  }

  /** The logical LED mask that PORTF value `f` and PORTB value `b` drive. */
  function ShownOn(f: bv8, b: bv8): bv8
  {
    ((f >> 4) & PORTF_MASK) | (b & PORTB_MASK)
  }

  /** Everything an LED operation must leave alone: the directions and the non-LED pins. */
  predicate SameNonLedPins(p: LedPorts, q: LedPorts)
  {
    && p.ddrF == q.ddrF
    && p.ddrB == q.ddrB
    && p.portF & !PORTF_ALL_PORTS == q.portF & !PORTF_ALL_PORTS
    && p.portB & !PORTB_ALL_PORTS == q.portB & !PORTB_ALL_PORTS
  }

  /** The two port masks are disjoint, the shifted PORTF mask does not lose bits, and
      the RX and TX masks share exactly the ACT LED. */
  lemma MaskLayout()
    ensures PORTF_MASK & PORTB_MASK == 0
    ensures (PORTF_MASK as int) * 16 == PORTF_ALL_PORTS as int
    ensures PORTF_ALL_PORTS == 0xF0 && PORTB_ALL_PORTS == 0x30
    ensures ALL_MASK == 0x3F
    ensures LEDMASK_RX & LEDMASK_TX == LEDS_ACT
  {
  }

  /** A port state is determined by the LEDs it shows and the pins LEDs do not use. */
  lemma ShownDeterminesPorts(p: LedPorts, q: LedPorts)
    requires SameNonLedPins(p, q)
    requires Shown(p) == Shown(q)
    ensures p == q
  {
  }

  /** Setting the pins of `m` lights exactly the LEDs of `m` on top of the lit ones. */
  lemma SetPinsEffect(f: bv8, b: bv8, m: bv8)
    ensures ShownOn(f | PortFPins(m), b | PortBPins(m)) == ShownOn(f, b) | (m & ALL_MASK)
    ensures (f | PortFPins(m)) & !PORTF_ALL_PORTS == f & !PORTF_ALL_PORTS
    ensures (b | PortBPins(m)) & !PORTB_ALL_PORTS == b & !PORTB_ALL_PORTS
  {
  }

  /** Clearing the pins of `m` puts out exactly the LEDs of `m`. */
  lemma ClearPinsEffect(f: bv8, b: bv8, m: bv8)
    ensures ShownOn(f & !PortFPins(m), b & !PortBPins(m)) == ShownOn(f, b) & !m
    ensures (f & !PortFPins(m)) & !PORTF_ALL_PORTS == f & !PORTF_ALL_PORTS
    ensures (b & !PortBPins(m)) & !PORTB_ALL_PORTS == b & !PORTB_ALL_PORTS
  {
  }

  /** LEDs_Init: the LED pins become outputs and are driven low; nothing else changes. */
  function Init(p: LedPorts): (r: LedPorts)
    ensures r.ddrF & PORTF_ALL_PORTS == PORTF_ALL_PORTS
    ensures r.ddrB & PORTB_ALL_PORTS == PORTB_ALL_PORTS
    ensures r.ddrF & !PORTF_ALL_PORTS == p.ddrF & !PORTF_ALL_PORTS
    ensures r.ddrB & !PORTB_ALL_PORTS == p.ddrB & !PORTB_ALL_PORTS
    ensures r.portF & !PORTF_ALL_PORTS == p.portF & !PORTF_ALL_PORTS
    ensures r.portB & !PORTB_ALL_PORTS == p.portB & !PORTB_ALL_PORTS
    ensures Shown(r) == 0
  {
    LedPorts(p.ddrF | PORTF_ALL_PORTS, p.portF & !PORTF_ALL_PORTS,
             p.ddrB | PORTB_ALL_PORTS, p.portB & !PORTB_ALL_PORTS)
  }

  /** LEDs_Disable: the LED pins go back to inputs without pull-ups; nothing else changes. */
  function Disable(p: LedPorts): (r: LedPorts)
    ensures r.ddrF & PORTF_ALL_PORTS == 0 && r.ddrB & PORTB_ALL_PORTS == 0
    ensures r.ddrF & !PORTF_ALL_PORTS == p.ddrF & !PORTF_ALL_PORTS
    ensures r.ddrB & !PORTB_ALL_PORTS == p.ddrB & !PORTB_ALL_PORTS
    ensures r.portF & !PORTF_ALL_PORTS == p.portF & !PORTF_ALL_PORTS
    ensures r.portB & !PORTB_ALL_PORTS == p.portB & !PORTB_ALL_PORTS
    ensures Shown(r) == 0
  {
    LedPorts(p.ddrF & !PORTF_ALL_PORTS, p.portF & !PORTF_ALL_PORTS,
             p.ddrB & !PORTB_ALL_PORTS, p.portB & !PORTB_ALL_PORTS)
  }

  /** Initialising after a disable is the same as initialising directly, and disabling after
      an initialisation is the same as disabling directly: both set every LED pin, so the later
      one alone decides them. */
  lemma InitDisableLastWins(p: LedPorts)
    ensures Init(Disable(p)) == Init(p)
    ensures Disable(Init(p)) == Disable(p)
  {
    SetAfterClear(p.ddrF, PORTF_ALL_PORTS);
    SetAfterClear(p.ddrB, PORTB_ALL_PORTS);
    ClearAfterClear(p.portF, PORTF_ALL_PORTS);
    ClearAfterClear(p.portB, PORTB_ALL_PORTS);
    ClearAfterSet(p.ddrF, PORTF_ALL_PORTS);
    ClearAfterSet(p.ddrB, PORTB_ALL_PORTS);
  }

  lemma SetAfterClear(x: bv8, m: bv8)
    ensures (x & !m) | m == x | m
  {
  }

  lemma ClearAfterSet(x: bv8, m: bv8)
    ensures (x | m) & !m == x & !m
  {
  }

  lemma ClearAfterClear(x: bv8, m: bv8)
    ensures (x & !m) & !m == x & !m
  {
  }

  /** LEDs_TurnOnLEDs: the LEDs of `m` light up, every other LED and pin keeps its level. */
  function TurnOn(p: LedPorts, m: bv8): (r: LedPorts)
    ensures Shown(r) == Shown(p) | (m & ALL_MASK)
    ensures SameNonLedPins(p, r)
    ensures r.portF & !PortFPins(m) == p.portF & !PortFPins(m)
    ensures r.portB & !PortBPins(m) == p.portB & !PortBPins(m)
  {
    SetPinsEffect(p.portF, p.portB, m);
    p.(portF := p.portF | PortFPins(m), portB := p.portB | PortBPins(m))
  }

  /** Turns the LEDs of `m` on when `c` holds; the guarded calls of the bridge. */
  function TurnOnIf(p: LedPorts, c: bool, m: bv8): (r: LedPorts)
    ensures Shown(r) == Shown(p) | (if c then m & ALL_MASK else 0)
    ensures SameNonLedPins(p, r)
  {
    if c then TurnOn(p, m) else p
  }

  /** Two guarded turn-ons light the union of what each lit. */
  lemma TurnOnIfTwice(p: LedPorts, c1: bool, m1: bv8, c2: bool, m2: bv8)
    ensures var r := TurnOnIf(TurnOnIf(p, c1, m1), c2, m2);
      && Shown(r) == Shown(p) | (if c1 then m1 & ALL_MASK else 0) | (if c2 then m2 & ALL_MASK else 0)
      && SameNonLedPins(p, r)
  {
    var q := TurnOnIf(p, c1, m1);
    var r := TurnOnIf(q, c2, m2);
    assert Shown(q) == Shown(p) | (if c1 then m1 & ALL_MASK else 0);
    assert Shown(r) == Shown(q) | (if c2 then m2 & ALL_MASK else 0);
  }

  /** LEDs_TurnOffLEDs: the LEDs of `m` go dark, every other LED and pin keeps its level. */
  function TurnOff(p: LedPorts, m: bv8): (r: LedPorts)
    ensures Shown(r) == Shown(p) & !m
    ensures SameNonLedPins(p, r)
    ensures r.portF & !PortFPins(m) == p.portF & !PortFPins(m)
    ensures r.portB & !PortBPins(m) == p.portB & !PortBPins(m)
  {
    ClearPinsEffect(p.portF, p.portB, m);
    p.(portF := p.portF & !PortFPins(m), portB := p.portB & !PortBPins(m))
  }

  /** LEDs_SetAllLEDs: exactly the LEDs of `m` are lit afterwards; non-LED pins are kept. */
  function SetAll(p: LedPorts, m: bv8): (r: LedPorts)
    ensures Shown(r) == m & ALL_MASK
    ensures SameNonLedPins(p, r)
  {
    var f := p.portF & !PORTF_ALL_PORTS;
    var b := p.portB & !PORTB_ALL_PORTS;
    p.(portF := f | PortFPins(m), portB := b | PortBPins(m))
  }

  /** LEDs_ChangeLEDs: LEDs of `a` end lit, LEDs of `m` outside `a` end dark, the rest keep their level. */
  function Change(p: LedPorts, m: bv8, a: bv8): (r: LedPorts)
    ensures Shown(r) & (a & ALL_MASK) == a & ALL_MASK
    ensures Shown(r) & (m & !a) == 0
    ensures Shown(r) & !(m | a) == Shown(p) & !(m | a)
    ensures SameNonLedPins(p, r)
  {
    var f := p.portF & !PortFPins(m);
    var b := p.portB & !PortBPins(m);
    p.(portF := f | PortFPins(a), portB := b | PortBPins(a))
  }

  /** LEDs_GetLEDs: this board's driver reports no LED as lit, whatever the ports show. */
  function GetLeds(p: LedPorts): (r: bv8)
    ensures r == 0
  {
    0
  }

  /** Turning the same LEDs on (or off) twice is the same as doing it once. */
  lemma TurnOnOffIdempotent(p: LedPorts, m: bv8)
    ensures TurnOn(TurnOn(p, m), m) == TurnOn(p, m)
    ensures TurnOff(TurnOff(p, m), m) == TurnOff(p, m)
  {
    assert TurnOn(TurnOn(p, m), m) == TurnOn(p, m) by {
      ShownDeterminesPorts(TurnOn(TurnOn(p, m), m), TurnOn(p, m));
    }
    assert TurnOff(TurnOff(p, m), m) == TurnOff(p, m) by {
      ShownDeterminesPorts(TurnOff(TurnOff(p, m), m), TurnOff(p, m));
    }
  }

  /** LEDs_TurnOnLEDs is LEDs_ChangeLEDs with the same mask as both arguments. */
  lemma TurnOnIsChange(p: LedPorts, m: bv8)
    ensures TurnOn(p, m) == Change(p, m, m)
  {
    ShownDeterminesPorts(TurnOn(p, m), Change(p, m, m));
  }

  /** LEDs_TurnOffLEDs is LEDs_ChangeLEDs with an empty active mask. */
  lemma TurnOffIsChange(p: LedPorts, m: bv8)
    ensures TurnOff(p, m) == Change(p, m, 0)
  {
    ShownDeterminesPorts(TurnOff(p, m), Change(p, m, 0));
  }

  /** LEDs_SetAllLEDs is LEDs_ChangeLEDs over every LED. */
  lemma SetAllIsChange(p: LedPorts, m: bv8)
    ensures SetAll(p, m) == Change(p, ALL_MASK, m)
  {
    ShownDeterminesPorts(SetAll(p, m), Change(p, ALL_MASK, m));
  }

  /** Turning off the RX or the TX pulse mask also puts out the shared ACT LED. */
  lemma PulseMasksClearAct(p: LedPorts)
    ensures Shown(TurnOff(p, LEDMASK_RX)) & LEDS_ACT == 0
    ensures Shown(TurnOff(p, LEDMASK_TX)) & LEDS_ACT == 0
  {
  }
}
