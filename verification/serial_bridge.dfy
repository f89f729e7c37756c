/**
  The USB-to-serial bridge of USBtoSerial.c as a sequential state machine.

  The state holds the two FIFOs, the two LED pulse counters and the LED ports.
  `SerialTask` is one non-blocking pass of Serial_Task; `UartRxIsr` and
  `TimerIsr` are the two interrupt routines, each an atomic step taken between
  passes. Everything the USB stack and the UART hardware decide (the CDC receive
  result, whether the IN endpoint is ready, each CDC send result, whether the
  UART can take a byte, the USB device state) is an input of the step.
*/
module SerialBridge {
  import opened Wrappers
  import opened RingBuffer
  import Leds

  /** TX_RX_LED_PULSE_PERIOD: ticks the TX or RX LED stays lit after its pulse is armed. */
  const PULSE_PERIOD: nat := 100

  /** The type CDC_Device_ReceiveByte returns: a byte, or a negative value when nothing arrived. */
  type Int16 = x: int | -32768 <= x < 32768

  /** The USB device states of the USB stack; the bridge only distinguishes Configured. */
  datatype UsbDeviceState = Unattached | Powered | Default | Addressed | Configured | Suspended

  datatype Bridge = Bridge(
    toUart: seq<bv8>,   // USBtoUSART_Buffer: bytes from the host waiting for the UART
    toHost: seq<bv8>,   // USARTtoUSB_Buffer: bytes from the UART waiting for the host
    txPulse: nat,       // TxLEDPulse
    rxPulse: nat,       // RxLEDPulse
    leds: Leds.LedPorts)

  /** The buffers never exceed their storage, and a pulse counter never exceeds the
      period it is armed with, so the uint16_t counters never wrap. */
  predicate Valid(b: Bridge): (v: bool)
    ensures v ==> |b.toUart| <= 128 && |b.toHost| <= 128
    ensures v ==> b.txPulse < 0x1_0000 && b.rxPulse < 0x1_0000
  {
    && Bounded(b.toUart)
    && Bounded(b.toHost)
    && b.txPulse <= PULSE_PERIOD
    && b.rxPulse <= PULSE_PERIOD
  }

  /** CDC_TXRX_EPSIZE, the size of the CDC data endpoints, comes from a header this model does
      not see; any value that fits the endpoint hardware is allowed. */
  predicate ValidEpSize(epSize: nat)
  {
    1 <= epSize <= 256
  }

  /** The state after SetupSerialHardware: both buffers emptied by RingBuffer_InitBuffer, both
      pulse counters at their static initial value 0. */
  function SerialInit(leds: Leds.LedPorts): (b: Bridge)
    ensures Valid(b)
    ensures IsEmpty(b.toUart) && IsEmpty(b.toHost)
    ensures b.txPulse == 0 && b.rxPulse == 0
  {
    Bridge([], [], 0, 0, leds)
  }

  // ---------------------------------------------------------------------------
  // Step 1 of Serial_Task: one byte from the host into USBtoUSART_Buffer.

  /** The byte stored for a non-negative receive result: RingBuffer_Insert takes a uint8, so the
      16-bit value is narrowed to its low byte. */
  function ReceivedByte(rx: Int16): (r: bv8)
    requires rx >= 0
    ensures r as int == rx % 256
  {
    ByteOf(rx % 256)
  }

  /** The byte holding a value that fits in one, built by counting up from 0 so that each step
      only relates a byte increment to an integer one. */
  function ByteOf(m: int): (r: bv8)
    requires 0 <= m < 256
    ensures r as int == m
  {
    if m == 0 then 0 else ByteOf(m - 1) + 1
  }

  /** The bytes the pass takes from the host: none when the buffer is full (no read is made) or
      when the read returns a negative value, otherwise the one byte read. */
  function Accepted(b: Bridge, rx: Int16): (a: seq<bv8>)
    ensures |a| <= 1
    ensures a != [] <==> !IsFull(b.toUart) && rx >= 0
    ensures a != [] ==> a == [ReceivedByte(rx)]
  {
    if !IsFull(b.toUart) && rx >= 0 then [ReceivedByte(rx)] else []
  }

  datatype ReadResult = ReadResult(next: Bridge, cdcRead: bool)

  function ReadFromHost(b: Bridge, rx: Int16): (r: ReadResult)
    requires Valid(b)
    ensures Valid(r.next)
    ensures r.cdcRead <==> !IsFull(b.toUart)
    ensures r.next.toUart == b.toUart + Accepted(b, rx)
    ensures r.next.toHost == b.toHost && r.next.rxPulse == b.rxPulse
    ensures Accepted(b, rx) != [] ==>
              r.next.txPulse == PULSE_PERIOD && r.next.leds == Leds.TurnOn(b.leds, Leds.LEDMASK_TX)
    ensures Accepted(b, rx) == [] ==> r.next.txPulse == b.txPulse && r.next.leds == b.leds
  {
    if IsFull(b.toUart) then ReadResult(b, false)
    else if rx < 0 then ReadResult(b, true)
    else
      var leds := Leds.TurnOn(b.leds, Leds.LEDMASK_TX);
      ReadResult(b.(leds := leds, txPulse := PULSE_PERIOD,
                    toUart := Insert(b.toUart, ReceivedByte(rx))), true)
  }

  // ---------------------------------------------------------------------------
  // Step 2 of Serial_Task: flush USARTtoUSB_Buffer to the CDC IN endpoint.

  /** The MIN macro that bounds the flush budget. */
  function Min(a: nat, b: nat): (m: nat)
    ensures m <= a && m <= b
    ensures m == a || m == b
  {
    if a <= b then a else b
  }

  /** BytesToSend: at most one byte less than the endpoint size, and nothing when the IN
      endpoint is still busy. MIN(BufferCount, CDC_TXRX_EPSIZE - 1) is at most 255, so the
      uint8 it is stored in never truncates. */
  function FlushBudget(count: nat, epSize: nat, inReady: bool): (n: nat)
    requires ValidEpSize(epSize)
    ensures n <= count && n < epSize && n < 256
    ensures !inReady ==> n == 0
    ensures inReady ==> n == count || n == epSize - 1
  {
    if inReady then Min(count, epSize - 1) else 0
  }

  /** Number of consecutive successful sends, starting with attempt `from`, when at most
      `budget` attempts may be made; `ok(i)` is the result of the i-th send attempt. */
  function SuccessRun(ok: nat -> bool, from: nat, budget: nat): (k: nat)
    ensures k <= budget
    ensures forall j :: from <= j < from + k ==> ok(j)
    ensures k < budget ==> !ok(from + k)
    decreases budget
  {
    if budget == 0 || !ok(from) then 0 else 1 + SuccessRun(ok, from + 1, budget - 1)
  }

  /** What one flush did: what is left, the bytes handed to CDC_Device_SendByte (including a
      failed one), and the bytes delivered (sent and dequeued). */
  datatype FlushResult = FlushResult(rest: seq<bv8>, handed: seq<bv8>, delivered: seq<bv8>)

  /** Reference definition of the flush: the delivered bytes are the longest prefix of the
      budget whose sends all succeed; a failed attempt is handed over but stays queued. */
  function Flush(buf: seq<bv8>, epSize: nat, inReady: bool, ok: nat -> bool): (r: FlushResult)
    requires ValidEpSize(epSize)
    ensures r.delivered + r.rest == buf
    ensures |r.delivered| <= Min(|buf|, epSize - 1)
    ensures !inReady ==> r.delivered == [] && r.handed == []
    ensures forall i :: 0 <= i < |r.delivered| ==> ok(i)
    ensures r.handed == r.delivered || (r.rest != [] && r.handed == r.delivered + [r.rest[0]])
    ensures |r.handed| > |r.delivered| <==> !ok(|r.delivered|) && |r.delivered| < FlushBudget(|buf|, epSize, inReady)
    ensures inReady && |r.delivered| < Min(|buf|, epSize - 1) ==> !ok(|r.delivered|)
  {
    var budget := FlushBudget(|buf|, epSize, inReady);
    var k := SuccessRun(ok, 0, budget);
    var attempts := if k < budget then k + 1 else k;
    assert buf[..k] + buf[k..] == buf;
    assert k < budget ==> buf[..attempts] == buf[..k] + [buf[k..][0]];
    FlushResult(buf[k..], buf[..attempts], buf[..k])
  }

  /** The flush loop as Serial_Task writes it: peek the head, send it, stop at the first
      failure without dequeuing, otherwise dequeue and go on while the budget lasts. */
  method FlushLoop(buf: seq<bv8>, epSize: nat, inReady: bool, ok: nat -> bool)
    returns (rest: seq<bv8>, handed: seq<bv8>)
    requires ValidEpSize(epSize)
    ensures var budget := FlushBudget(|buf|, epSize, inReady);
      var k := SuccessRun(ok, 0, budget);
      && rest == buf[k..]
      && handed == buf[..if k < budget then k + 1 else k]
  {
    var budget := FlushBudget(|buf|, epSize, inReady);
    rest := buf;
    handed := [];
    if !inReady {
      return;
    }
    var bytesToSend: nat := budget;
    var attempt: nat := 0;
    while bytesToSend > 0
      invariant attempt + bytesToSend == budget <= |buf|
      invariant rest == buf[attempt..]
      invariant handed == buf[..attempt]
      invariant SuccessRun(ok, 0, budget) == attempt + SuccessRun(ok, attempt, bytesToSend)
    {
      SuccessRunStep(ok, attempt, bytesToSend);
      bytesToSend := bytesToSend - 1;
      var head := Peek(rest);
      assert head == buf[attempt];
      assert buf[..attempt + 1] == buf[..attempt] + [head];
      handed := handed + [head];
      if !ok(attempt) {
        assert SuccessRun(ok, 0, budget) == attempt < budget;
        return;
      }
      rest := Remove(rest);
      assert rest == buf[attempt + 1..];
      attempt := attempt + 1;
    }
    assert SuccessRun(ok, 0, budget) == budget;
  }

  /** One unfolding of SuccessRun. */
  lemma SuccessRunStep(ok: nat -> bool, from: nat, budget: nat)
    requires budget > 0
    ensures ok(from) ==> SuccessRun(ok, from, budget) == 1 + SuccessRun(ok, from + 1, budget - 1)
    ensures !ok(from) ==> SuccessRun(ok, from, budget) == 0
  {
  }

  /** The reference flush leaves and hands over what FlushLoop does: both are determined by
      the success run `k` of the budget. */
  lemma FlushShape(buf: seq<bv8>, epSize: nat, inReady: bool, ok: nat -> bool)
    requires ValidEpSize(epSize)
    ensures var budget := FlushBudget(|buf|, epSize, inReady);
      var k := SuccessRun(ok, 0, budget);
      var f := Flush(buf, epSize, inReady, ok);
      && f.rest == buf[k..]
      && f.handed == buf[..if k < budget then k + 1 else k]
  {
  }

  datatype SendResult = SendResult(next: Bridge, handed: seq<bv8>, delivered: seq<bv8>)

  /** The flush part of the pass: with bytes waiting, the RX LED is lit and its pulse re-armed
      whether or not the endpoint is ready, then the flush runs. */
  function SendToHost(b: Bridge, epSize: nat, inReady: bool, ok: nat -> bool): (r: SendResult)
    requires Valid(b) && ValidEpSize(epSize)
    ensures Valid(r.next)
    ensures r.next.toUart == b.toUart && r.next.txPulse == b.txPulse
    ensures r.delivered + r.next.toHost == b.toHost
    ensures IsEmpty(b.toHost) ==> r.next == b && r.handed == []
    ensures !IsEmpty(b.toHost) ==>
              r.next.rxPulse == PULSE_PERIOD && r.next.leds == Leds.TurnOn(b.leds, Leds.LEDMASK_RX)
    ensures var f := Flush(b.toHost, epSize, inReady, ok);
              r.handed == f.handed && r.delivered == f.delivered
  {
    if IsEmpty(b.toHost) then
      SendResult(b, [], [])
    else
      var f := Flush(b.toHost, epSize, inReady, ok);
      var leds := Leds.TurnOn(b.leds, Leds.LEDMASK_RX);
      SendResult(b.(leds := leds, rxPulse := PULSE_PERIOD, toHost := f.rest), f.handed, f.delivered)
  }

  // ---------------------------------------------------------------------------
  // Step 3 of Serial_Task: at most one byte to the UART.

  datatype UartResult = UartResult(next: Bridge, out: Option<bv8>)

  function SendToUart(b: Bridge, uartReady: bool): (r: UartResult)
    requires Valid(b)
    ensures Valid(r.next)
    ensures r.out.Some? <==> uartReady && !IsEmpty(b.toUart)
    ensures r.out.ToSeq() + r.next.toUart == b.toUart
    ensures r.next.toHost == b.toHost && r.next.txPulse == b.txPulse
    ensures r.next.rxPulse == b.rxPulse && r.next.leds == b.leds
  {
    if uartReady && !IsEmpty(b.toUart) then
      UartResult(b.(toUart := Remove(b.toUart)), Some(Peek(b.toUart)))
    else
      UartResult(b, None)
  }

  // ---------------------------------------------------------------------------
  // The whole pass.

  /** The environment of one pass, apart from the per-attempt send results. */
  datatype PassInputs = PassInputs(
    received: Int16,   // what CDC_Device_ReceiveByte would return
    inReady: bool,     // Endpoint_IsINReady
    uartReady: bool)   // Serial_IsSendReady

  /** What a pass did at its boundary with the USB stack and the UART. */
  datatype PassEffects = PassEffects(
    cdcRead: bool,             // CDC_Device_ReceiveByte was called
    handedToCdc: seq<bv8>,     // bytes given to CDC_Device_SendByte, in order
    deliveredToHost: seq<bv8>, // of those, the ones sent successfully
    uartOut: Option<bv8>)      // byte given to Serial_SendByte

  datatype PassResult = PassResult(next: Bridge, effects: PassEffects)

  /** Serial_Task: read from the host, flush to the host, feed the UART, in that order. */
  function SerialTask(b: Bridge, epSize: nat, env: PassInputs, ok: nat -> bool): (r: PassResult)
    requires Valid(b) && ValidEpSize(epSize)
    ensures Valid(r.next)
    // Host to UART: a read happens only when there is room, and bytes leave in arrival order.
    ensures r.effects.cdcRead <==> !IsFull(b.toUart)
    ensures r.effects.uartOut.ToSeq() + r.next.toUart == b.toUart + Accepted(b, env.received)
    ensures r.effects.uartOut.Some? <==> env.uartReady && b.toUart + Accepted(b, env.received) != []
    // UART to host: only the delivered bytes leave, from the head.
    ensures r.effects.deliveredToHost + r.next.toHost == b.toHost
  {
    var s1 := ReadFromHost(b, env.received);
    var s2 := SendToHost(s1.next, epSize, env.inReady, ok);
    var s3 := SendToUart(s2.next, env.uartReady);
    PassResult(s3.next, PassEffects(s1.cdcRead, s2.handed, s2.delivered, s3.out))
  }

  /** The flush half of a pass: bytes go to the CDC endpoint in FIFO order, at most one less
      than the endpoint size and none while the IN endpoint is busy; a byte is dequeued only
      after its send succeeded, and a failed byte stays at the head of the buffer. */
  lemma PassFlushesSentPrefix(b: Bridge, epSize: nat, env: PassInputs, ok: nat -> bool)
    requires Valid(b) && ValidEpSize(epSize)
    ensures var r := SerialTask(b, epSize, env, ok);
      var sent := r.effects.deliveredToHost;
      var handed := r.effects.handedToCdc;
      && |sent| <= Min(|b.toHost|, epSize - 1)
      && (!env.inReady ==> sent == [] && handed == [])
      && (forall i :: 0 <= i < |sent| ==> ok(i))
      && (handed == sent || (!ok(|sent|) && r.next.toHost != [] && handed == sent + [r.next.toHost[0]]))
      && (env.inReady && |sent| < Min(|b.toHost|, epSize - 1) ==> !ok(|sent|) && |handed| == |sent| + 1)
  {
    var s1 := ReadFromHost(b, env.received);
    var f := Flush(s1.next.toHost, epSize, env.inReady, ok);
    assert s1.next.toHost == b.toHost;
  }

  /** Pulses and LEDs of a pass: a counter is re-armed to the full period (not accumulated)
      exactly when its direction saw data, its LEDs are lit then, and nothing else changes. */
  lemma PassArmsPulses(b: Bridge, epSize: nat, env: PassInputs, ok: nat -> bool)
    requires Valid(b) && ValidEpSize(epSize)
    ensures var r := SerialTask(b, epSize, env, ok);
      var got := Accepted(b, env.received) != [];
      && r.next.txPulse == (if got then PULSE_PERIOD else b.txPulse)
      && r.next.rxPulse == (if !IsEmpty(b.toHost) then PULSE_PERIOD else b.rxPulse)
      && Leds.Shown(r.next.leds) ==
           Leds.Shown(b.leds)
           | (if got then Leds.LEDMASK_TX else 0)
           | (if !IsEmpty(b.toHost) then Leds.LEDMASK_RX else 0)
      && Leds.SameNonLedPins(b.leds, r.next.leds)
  {
    var got := Accepted(b, env.received) != [];
    var s1 := ReadFromHost(b, env.received);
    var s2 := SendToHost(s1.next, epSize, env.inReady, ok);
    assert s1.next.leds == Leds.TurnOnIf(b.leds, got, Leds.LEDMASK_TX);
    assert s2.next.leds == Leds.TurnOnIf(s1.next.leds, !IsEmpty(b.toHost), Leds.LEDMASK_RX);
    Leds.TurnOnIfTwice(b.leds, got, Leds.LEDMASK_TX, !IsEmpty(b.toHost), Leds.LEDMASK_RX);
  }

  // ---------------------------------------------------------------------------
  // Interrupt routines.

  /** ISR(USART1_RX_vect): the received byte is always read from UDR1, but queued for the host
      only while the device is configured and the buffer has room; otherwise it is dropped. */
  function UartRxIsr(b: Bridge, byte: bv8, state: UsbDeviceState): (r: Bridge)
    requires Valid(b)
    ensures Valid(r)
    ensures r.toHost == b.toHost + [byte] <==> state == Configured && !IsFull(b.toHost)
    ensures !(state == Configured && !IsFull(b.toHost)) ==> r == b
    ensures r.toUart == b.toUart && r.txPulse == b.txPulse && r.rxPulse == b.rxPulse
    ensures r.leds == b.leds
  {
    if state == Configured && !IsFull(b.toHost) then b.(toHost := Insert(b.toHost, byte))
    else b
  }

  /** One pulse counter step: a running counter counts down by one and reports whether it
      has just reached zero. */
  function CountDown(c: nat): (r: (nat, bool))
    ensures c > 0 ==> r.0 + 1 == c
    ensures c == 0 ==> r.0 == 0
    ensures r.1 <==> c == 1
  {
    if c != 0 then (c - 1, c - 1 == 0) else (0, false)
  }

  /** ISR(TIMER3_COMPA_vect): both counters count down; an LED pulse ends, and its LEDs are
      turned off, exactly on the step from 1 to 0. */
  function TimerIsr(b: Bridge): (r: Bridge)
    requires Valid(b)
    ensures Valid(r)
    ensures b.txPulse > 0 ==> r.txPulse == b.txPulse - 1
    ensures b.rxPulse > 0 ==> r.rxPulse == b.rxPulse - 1
    ensures b.txPulse == 0 ==> r.txPulse == 0
    ensures b.rxPulse == 0 ==> r.rxPulse == 0
    ensures Leds.Shown(r.leds) ==
              Leds.Shown(b.leds)
              & !(if b.txPulse == 1 then Leds.LEDMASK_TX else 0)
              & !(if b.rxPulse == 1 then Leds.LEDMASK_RX else 0)
    ensures b.txPulse != 1 && b.rxPulse != 1 ==> r.leds == b.leds
    ensures Leds.SameNonLedPins(b.leds, r.leds)
    ensures r.toUart == b.toUart && r.toHost == b.toHost
  {
    var (tx, txDone) := CountDown(b.txPulse);
    var leds1 := if txDone then Leds.TurnOff(b.leds, Leds.LEDMASK_TX) else b.leds;
    var (rx, rxDone) := CountDown(b.rxPulse);
    var leds2 := if rxDone then Leds.TurnOff(leds1, Leds.LEDMASK_RX) else leds1;
    b.(txPulse := tx, rxPulse := rx, leds := leds2)
  }
}
