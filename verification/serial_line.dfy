/**
  The CDC line events of USBtoSerial.c: the line-encoding handler, which turns the
  host's parity, stop-bit and data-bit settings into a UCSR1C frame mask and
  reprograms the USART with an ordered sequence of register writes, and the
  control-line handler, which mirrors the host's DTR signal on the auxiliary
  (target reset) line.

  The USART bit numbers (UPM11, UPM10, USBS1, UCSZ11, UCSZ10, U2X1, RXCIE1,
  TXEN1, RXEN1) come from the device headers, which are not part of this model;
  the values below are those of the ATmega16U4/32U4 USART1 register
  description. The line-coding codes are those of the USB CDC PSTN subclass
  specification (line coding structure: parity 1 = odd, 2 = even; character
  format 2 = two stop bits; SetControlLineState: bit 0 = DTR).
*/
module SerialLine {

  // USART1 register bit numbers of the AVR USB microcontrollers (UCSR1C: UPM11 5, UPM10 4,
  // USBS1 3, UCSZ11 2, UCSZ10 1; UCSR1A: U2X1 1; UCSR1B: RXCIE1 7, RXEN1 4, TXEN1 3).
  const UPM11: bv8 := 5
  const UPM10: bv8 := 4
  const USBS1: bv8 := 3
  const UCSZ11: bv8 := 2
  const UCSZ10: bv8 := 1
  const U2X1: bv8 := 1
  const RXCIE1: bv8 := 7
  const RXEN1: bv8 := 4
  const TXEN1: bv8 := 3

  /** `1 << p` in an 8-bit register. */
  function Bit(p: bv8): bv8
    requires p < 8
  {
    1 << p
  }

  /** Register value `x` has the bit of mask `b` set. */
  predicate Has(x: bv8, b: bv8)
  {
    x & b != 0
  }

  const CDC_PARITY_ODD: bv8 := 1
  const CDC_PARITY_EVEN: bv8 := 2
  const CDC_LINEENCODING_TWO_STOP_BITS: bv8 := 2
  const CDC_CONTROL_LINE_OUT_DTR: bv16 := 1

  /** The line coding the host last sent, as the CDC class driver stores it. */
  datatype LineEncoding = LineEncoding(baudRateBps: bv32, charFormat: bv8, parityType: bv8, dataBits: bv8)

  /** The frame-format bits the handler may set. */
  function FrameBits(): bv8
  {
    Bit(UPM11) | Bit(UPM10) | Bit(USBS1) | Bit(UCSZ11) | Bit(UCSZ10)
  }

  /** The parity field of ConfigMask: odd sets both UPM1 bits, even sets UPM11 only, any other
      code falls through the switch and sets neither. */
  function ParityBits(parityType: bv8): (r: bv8)
    ensures Has(r, Bit(UPM11)) <==> parityType == CDC_PARITY_ODD || parityType == CDC_PARITY_EVEN
    ensures Has(r, Bit(UPM10)) <==> parityType == CDC_PARITY_ODD
    ensures r & !(Bit(UPM11) | Bit(UPM10)) == 0
  {
    if parityType == CDC_PARITY_ODD then Bit(UPM11) | Bit(UPM10)
    else if parityType == CDC_PARITY_EVEN then Bit(UPM11)
    else 0
  }

  /** The stop-bit field of ConfigMask: USBS1 exactly for two stop bits. */
  function StopBits(charFormat: bv8): (r: bv8)
    ensures Has(r, Bit(USBS1)) <==> charFormat == CDC_LINEENCODING_TWO_STOP_BITS
    ensures r & !Bit(USBS1) == 0
  {
    if charFormat == CDC_LINEENCODING_TWO_STOP_BITS then Bit(USBS1) else 0
  }

  /** The character-size field of ConfigMask: UCSZ1 = 01, 10, 11 for 6, 7, 8 data bits and 00
      for any other count. */
  function SizeBits(dataBits: bv8): (r: bv8)
    ensures Has(r, Bit(UCSZ11)) <==> dataBits == 7 || dataBits == 8
    ensures Has(r, Bit(UCSZ10)) <==> dataBits == 6 || dataBits == 8
    ensures r & !(Bit(UCSZ11) | Bit(UCSZ10)) == 0
  {
    if dataBits == 6 then Bit(UCSZ10)
    else if dataBits == 7 then Bit(UCSZ11)
    else if dataBits == 8 then Bit(UCSZ11) | Bit(UCSZ10)
    else 0
  }

  /** ConfigMask of EVENT_CDC_Device_LineEncodingChanged: the three fields, each in its own bits. */
  function ConfigMask(c: LineEncoding): (r: bv8)
    ensures Has(r, Bit(UPM11)) <==> c.parityType == CDC_PARITY_ODD || c.parityType == CDC_PARITY_EVEN
    ensures Has(r, Bit(UPM10)) <==> c.parityType == CDC_PARITY_ODD
    ensures Has(r, Bit(USBS1)) <==> c.charFormat == CDC_LINEENCODING_TWO_STOP_BITS
    ensures Has(r, Bit(UCSZ11)) <==> c.dataBits == 7 || c.dataBits == 8
    ensures Has(r, Bit(UCSZ10)) <==> c.dataBits == 6 || c.dataBits == 8
    ensures r & !FrameBits() == 0
  {
    ParityBits(c.parityType) | StopBits(c.charFormat) | SizeBits(c.dataBits)
  }

  datatype Parity = NoParity | OddParity | EvenParity

  /** The frame format the USART runs with. */
  datatype Framing = Framing(parity: Parity, twoStopBits: bool, dataBits: nat)

  /** The frame format a line coding asks for, as far as the USART supports it. */
  function Requested(c: LineEncoding): Framing
  {
    var parity :=
      if c.parityType == CDC_PARITY_ODD then OddParity
      else if c.parityType == CDC_PARITY_EVEN then EvenParity
      else NoParity;
    Framing(parity, c.charFormat == CDC_LINEENCODING_TWO_STOP_BITS, c.dataBits as nat)
  }

  /** Reads the frame format back from a UCSR1C value (UPM1 = 10 even, 11 odd; UCSZ1 gives
      5 + its value data bits). */
  function DecodeMask(m: bv8): Framing
  {
    var parity :=
      if !Has(m, Bit(UPM11)) then NoParity
      else if Has(m, Bit(UPM10)) then OddParity
      else EvenParity;
    var size := 5 + (if Has(m, Bit(UCSZ10)) then 1 else 0) + (if Has(m, Bit(UCSZ11)) then 2 else 0);
    Framing(parity, Has(m, Bit(USBS1)), size)
  }

  /** The three fields occupy disjoint bits, so for 5 to 8 data bits the requested frame format
      is read back from the mask unchanged; any other data-bit count reads back as 5. */
  lemma MaskRoundTrip(c: LineEncoding)
    ensures 5 <= c.dataBits <= 8 ==> DecodeMask(ConfigMask(c)) == Requested(c)
    ensures !(5 <= c.dataBits <= 8) ==>
              DecodeMask(ConfigMask(c)) == Requested(c).(dataBits := 5)
  {
    var m := ConfigMask(c);
    assert Has(m, Bit(UPM11)) <==> c.parityType == CDC_PARITY_ODD || c.parityType == CDC_PARITY_EVEN;
    assert Has(m, Bit(UPM10)) <==> c.parityType == CDC_PARITY_ODD;
  }

  // ---------------------------------------------------------------------------
  // Reprogramming the USART.

  /** The registers the handler touches. UBRR1 is the 16-bit baud-rate register pair. */
  datatype UartRegs = UartRegs(portD: bv8, ucsr1a: bv8, ucsr1b: bv8, ucsr1c: bv8, ubrr1: bv16)

  /** One register write. */
  datatype RegWrite =
    | WritePortD(d: bv8)
    | WriteUcsr1A(a: bv8)
    | WriteUcsr1B(b: bv8)
    | WriteUcsr1C(c: bv8)
    | WriteUbrr1(w: bv16)

  function Apply(u: UartRegs, w: RegWrite): UartRegs
  {
    match w
    case WritePortD(d) => u.(portD := d)
    case WriteUcsr1A(a) => u.(ucsr1a := a)
    case WriteUcsr1B(b) => u.(ucsr1b := b)
    case WriteUcsr1C(c) => u.(ucsr1c := c)
    case WriteUbrr1(x) => u.(ubrr1 := x)
  }

  /** The registers after the writes, in order. */
  function Run(u: UartRegs, ws: seq<RegWrite>): UartRegs
    decreases |ws|
  {
    if ws == [] then u else Run(Apply(u, ws[0]), ws[1..])
  }

  /** PORTD bit 3 is the USART's TXD pin; while it is set the line idles high. */
  const TXD_PIN: bv8 := 1 << 3

  /** The rules of a safe reconfiguration, for one write made in state `u`: the TX line is held
      idle whenever a USART register is written, and the frame, speed and status registers are
      written only while the USART is off (UCSR1B == 0). */
  predicate WriteAllowed(u: UartRegs, w: RegWrite)
  {
    && (!w.WritePortD? ==> u.portD & TXD_PIN != 0)
    && (w.WriteUcsr1A? || w.WriteUcsr1C? || w.WriteUbrr1? ==> u.ucsr1b == 0)
  }

  /** Every write of the sequence keeps the rules, each judged in the state it finds. */
  predicate SafeWrites(u: UartRegs, ws: seq<RegWrite>)
    decreases |ws|
  {
    ws == [] || (WriteAllowed(u, ws[0]) && SafeWrites(Apply(u, ws[0]), ws[1..]))
  }

  /** The USART1 control values after reconfiguration: double speed, receiver with its
      interrupt and transmitter on. */
  function EnabledA(): bv8 { Bit(U2X1) }
  function EnabledB(): bv8 { Bit(RXCIE1) | Bit(TXEN1) | Bit(RXEN1) }

  /** Running two write sequences one after the other is running their concatenation, and the
      concatenation is safe exactly when both parts are, each from the state it finds. */
  lemma {:induction false} RunAppend(u: UartRegs, a: seq<RegWrite>, b: seq<RegWrite>)
    ensures Run(u, a + b) == Run(Run(u, a), b)
    ensures SafeWrites(u, a + b) <==> SafeWrites(u, a) && SafeWrites(Run(u, a), b)
    decreases |a|
  {
    if a == [] {
      assert a + b == b;
    } else {
      RunAppend(Apply(u, a[0]), a[1..], b);
      assert (a + b)[0] == a[0];
      assert (a + b)[1..] == a[1..] + b;
    }
  }

  // The four phases of the handler.

  /** Hold the TX line idle (high). */
  function HoldTx(portD: bv8): seq<RegWrite>
  {
    [WritePortD(portD | TXD_PIN)]
  }

  /** Switch the USART off and clear its status and frame registers. */
  function StopUsart(): seq<RegWrite>
  {
    [WriteUcsr1B(0), WriteUcsr1A(0), WriteUcsr1C(0)]
  }

  /** Baud rate first, then frame format and double speed, then receiver, its interrupt and
      the transmitter. */
  function ProgramUsart(c: LineEncoding, divisor: bv32 -> bv16): seq<RegWrite>
  {
    [WriteUbrr1(divisor(c.baudRateBps)), WriteUcsr1C(ConfigMask(c)),
     WriteUcsr1A(EnabledA()), WriteUcsr1B(EnabledB())]
  }

  /** Release the TX line. */
  function ReleaseTx(portD: bv8): seq<RegWrite>
  {
    [WritePortD(portD & !TXD_PIN)]
  }

  /** The write sequence of EVENT_CDC_Device_LineEncodingChanged, starting from PORTD value
      `portD`. `divisor` stands for the SERIAL_2X_UBBRVAL baud-rate formula. */
  function LineEncodingWrites(portD: bv8, c: LineEncoding, divisor: bv32 -> bv16)
    : (ws: seq<RegWrite>)
    ensures |ws| == 9
    ensures ws[0].WritePortD? && ws[0].d & TXD_PIN != 0
    ensures ws[8].WritePortD? && ws[8].d & TXD_PIN == 0
    ensures forall i :: 1 <= i < 8 ==> !ws[i].WritePortD?
  {
    HoldTx(portD) + StopUsart() + ProgramUsart(c, divisor) + ReleaseTx(portD | TXD_PIN)
  }

  lemma HoldTxEffect(u: UartRegs)
    ensures SafeWrites(u, HoldTx(u.portD))
    ensures Run(u, HoldTx(u.portD)) == u.(portD := u.portD | TXD_PIN)
  {
    assert HoldTx(u.portD)[1..] == [];
  }

  lemma StopUsartEffect(u: UartRegs)
    requires u.portD & TXD_PIN != 0
    ensures SafeWrites(u, StopUsart())
    ensures Run(u, StopUsart()) == u.(ucsr1b := 0, ucsr1a := 0, ucsr1c := 0)
  {
    var ws := StopUsart();
    assert ws[1..] == [WriteUcsr1A(0), WriteUcsr1C(0)];
    assert ws[1..][1..] == [WriteUcsr1C(0)];
    assert ws[1..][1..][1..] == [];
  }

  lemma ProgramUsartEffect(u: UartRegs, c: LineEncoding, divisor: bv32 -> bv16)
    requires u.portD & TXD_PIN != 0 && u.ucsr1b == 0
    ensures SafeWrites(u, ProgramUsart(c, divisor))
    ensures Run(u, ProgramUsart(c, divisor)) ==
              u.(ubrr1 := divisor(c.baudRateBps), ucsr1c := ConfigMask(c),
                 ucsr1a := EnabledA(), ucsr1b := EnabledB())
  {
    var w0, w1, w2, w3 := WriteUbrr1(divisor(c.baudRateBps)), WriteUcsr1C(ConfigMask(c)),
                          WriteUcsr1A(EnabledA()), WriteUcsr1B(EnabledB());
    var u1 := Apply(u, w0);
    var u2 := Apply(u1, w1);
    var u3 := Apply(u2, w2);
    var u4 := Apply(u3, w3);
    assert [w3][1..] == [];
    assert Run(u3, [w3]) == u4 && SafeWrites(u3, [w3]);
    assert [w2, w3][1..] == [w3];
    assert Run(u2, [w2, w3]) == u4 && SafeWrites(u2, [w2, w3]);
    assert [w1, w2, w3][1..] == [w2, w3];
    assert Run(u1, [w1, w2, w3]) == u4 && SafeWrites(u1, [w1, w2, w3]);
    assert [w0, w1, w2, w3][1..] == [w1, w2, w3];
  }

  lemma ReleaseTxEffect(u: UartRegs)
    ensures SafeWrites(u, ReleaseTx(u.portD))
    ensures Run(u, ReleaseTx(u.portD)) == u.(portD := u.portD & !TXD_PIN)
  {
    assert ReleaseTx(u.portD)[1..] == [];
  }

  /** The handler reprograms the USART safely whatever state it starts from, and leaves it
      running the requested frame format and baud divisor with the TX pin released. */
  lemma LineEncodingIsSafe(u: UartRegs, c: LineEncoding, divisor: bv32 -> bv16)
    ensures var ws := LineEncodingWrites(u.portD, c, divisor);
      && SafeWrites(u, ws)
      && Run(u, ws) == UartRegs(u.portD & !TXD_PIN, EnabledA(), EnabledB(),
                               ConfigMask(c), divisor(c.baudRateBps))
  {
    var a, b, p, z := HoldTx(u.portD), StopUsart(), ProgramUsart(c, divisor), ReleaseTx(u.portD | TXD_PIN);
    HoldTxEffect(u);
    var u1 := Run(u, a);
    StopUsartEffect(u1);
    var u2 := Run(u1, b);
    ProgramUsartEffect(u2, c, divisor);
    var u3 := Run(u2, p);
    ReleaseTxEffect(u3);
    RunAppend(u, a, b);
    RunAppend(u, a + b, p);
    RunAppend(u, a + b + p, z);
    assert (u.portD | TXD_PIN) & !TXD_PIN == u.portD & !TXD_PIN;
  }

  /** Writing UBRR1 before switching the USART off is refused by the rules whenever the USART
      was running: the order of the handler matters. */
  lemma EarlyBaudWriteIsUnsafe(u: UartRegs, x: bv16, rest: seq<RegWrite>)
    requires u.ucsr1b != 0
    ensures !SafeWrites(u, [WritePortD(u.portD | TXD_PIN), WriteUbrr1(x)] + rest)
  {
    var ws := [WritePortD(u.portD | TXD_PIN), WriteUbrr1(x)] + rest;
    assert ws[1..][0] == WriteUbrr1(x);
  }

  // ---------------------------------------------------------------------------
  // The auxiliary (target reset) line.

  /** The AUX line set-up of SetupSerialHardware: the line's pins become outputs driven low. */
  function AuxLineInit(ddr: bv8, port: bv8, mask: bv8): (r: (bv8, bv8))
    ensures r.0 & mask == mask && r.0 & !mask == ddr & !mask
    ensures r.1 & mask == 0 && r.1 & !mask == port & !mask
  {
    (ddr | mask, port & !mask)
  }

  /** Start-up leaves the auxiliary line as a DTR-off request would: AuxLineInit and the
      control-line handler with DTR clear drive the same level on every pin of the port. */
  lemma AuxLineInitIsDtrOff(ddr: bv8, port: bv8, mask: bv8)
    ensures AuxLineInit(ddr, port, mask).1 == ControlLineStateChanged(port, mask, 0)
  {
  }

  /** EVENT_CDC_Device_ControLineStateChanged: the AUX pins follow the host's DTR bit and every
      other pin of the port keeps its level. */
  function ControlLineStateChanged(port: bv8, mask: bv8, hostToDevice: bv16): (r: bv8)
    ensures r & mask == (if hostToDevice & CDC_CONTROL_LINE_OUT_DTR != 0 then mask else 0)
    ensures r & !mask == port & !mask
  {
    if hostToDevice & CDC_CONTROL_LINE_OUT_DTR != 0 then port | mask else port & !mask
  }

  /** The auxiliary line has no memory of earlier DTR events: the last one alone decides it. */
  lemma ControlLineLastWins(port: bv8, mask: bv8, first: bv16, second: bv16)
    ensures ControlLineStateChanged(ControlLineStateChanged(port, mask, first), mask, second)
              == ControlLineStateChanged(port, mask, second)
  {
    var once := ControlLineStateChanged(port, mask, second);
    var twice := ControlLineStateChanged(ControlLineStateChanged(port, mask, first), mask, second);
    SamePinsSameByte(twice, once, mask);
  }

  /** A byte is determined by its bits inside and outside a mask. */
  lemma SamePinsSameByte(x: bv8, y: bv8, mask: bv8)
    requires x & mask == y & mask && x & !mask == y & !mask
    ensures x == y
  {
  }
}
