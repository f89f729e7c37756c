/**
  Runs of the serial bridge: many task passes and interrupts in a row.

  The single-step contracts of SerialBridge compose into the properties the
  bridge is for: bytes cross it in both directions in the order they arrived,
  a UART burst keeps what fits and drops the rest, and over any passes, UART
  bytes and ticks the TX and RX LEDs each stay lit for exactly the pulse period
  after their last arming. The ACT LED belongs to both pulse masks, so it goes
  out with whichever pulse ends first (`ActEndsWithFirstPulse`). The USB connect, disconnect and configuration-changed
  handlers are not bridge events: they rewrite every LED while the pulse
  counters run on (`Dispatch.UsbEventsDarkenPulseLeds`).
*/
module BridgeRuns {
  import opened Wrappers
  import opened RingBuffer
  import Leds
  import opened SerialBridge

  /** One atomic step of the bridge personality. */
  datatype BridgeEvent =
    | Pass(env: PassInputs, ok: nat -> bool)   // one Serial_Task pass
    | UartByte(byte: bv8, state: UsbDeviceState) // ISR(USART1_RX_vect)
    | Tick                                       // ISR(TIMER3_COMPA_vect)

  /** The traffic of a step or run at the bridge's four boundaries. */
  datatype Traffic = Traffic(
    fromHost: seq<bv8>,  // bytes taken from the CDC OUT endpoint
    toUart: seq<bv8>,    // bytes given to the UART transmitter
    fromUart: seq<bv8>,  // bytes the RX interrupt queued
    toHost: seq<bv8>)    // bytes sent successfully on the CDC IN endpoint

  datatype StepResult = StepResult(next: Bridge, traffic: Traffic)

  /** What crossed each boundary in one step. */
  function BridgeStep(b: Bridge, epSize: nat, e: BridgeEvent): (r: StepResult)
    requires Valid(b) && ValidEpSize(epSize)
    ensures Valid(r.next)
    ensures r.traffic.toUart + r.next.toUart == b.toUart + r.traffic.fromHost
    ensures r.traffic.toHost + r.next.toHost == b.toHost + r.traffic.fromUart
  {
    match e
    case Pass(env, ok) =>
      var p := SerialTask(b, epSize, env, ok);
      StepResult(p.next, Traffic(Accepted(b, env.received), p.effects.uartOut.ToSeq(), [],
                                 p.effects.deliveredToHost))
    case UartByte(byte, state) =>
      var n := UartRxIsr(b, byte, state);
      StepResult(n, Traffic([], [], if state == Configured && !IsFull(b.toHost) then [byte] else [], []))
    case Tick =>
      StepResult(TimerIsr(b), Traffic([], [], [], []))
  }

  /** Two FIFO stretches compose: if the first turns queue `q0` and input `in1` into output
      `out1` and queue `q1`, and the second turns `q1` and `in2` into `out2` and `q2`, then
      together they turn `q0` and `in1 + in2` into `out1 + out2` and `q2`. */
  lemma FifoCompose(q0: seq<bv8>, in1: seq<bv8>, out1: seq<bv8>, q1: seq<bv8>,
                    in2: seq<bv8>, out2: seq<bv8>, q2: seq<bv8>)
    requires out1 + q1 == q0 + in1
    requires out2 + q2 == q1 + in2
    ensures (out1 + out2) + q2 == q0 + (in1 + in2)
  {
    assert (out1 + out2) + q2 == out1 + (out2 + q2);
    assert out1 + (q1 + in2) == (out1 + q1) + in2;
    assert (q0 + in1) + in2 == q0 + (in1 + in2);
  }

  datatype RunResult = RunResult(final: Bridge, traffic: Traffic)

  /** The bridge after a run of events, with everything that crossed its boundaries. Bytes
      leave each FIFO in the order they entered it: what went to the UART followed by what is
      still queued is what was queued followed by what came from the host, and likewise in the
      other direction. */
  function RunBridge(b: Bridge, epSize: nat, events: seq<BridgeEvent>): (r: RunResult)
    requires Valid(b) && ValidEpSize(epSize)
    ensures Valid(r.final)
    ensures r.traffic.toUart + r.final.toUart == b.toUart + r.traffic.fromHost
    ensures r.traffic.toHost + r.final.toHost == b.toHost + r.traffic.fromUart
    decreases |events|
  {
    if events == [] then RunResult(b, Traffic([], [], [], []))
    else
      var s := BridgeStep(b, epSize, events[0]);
      var rest := RunBridge(s.next, epSize, events[1..]);
      var t := s.traffic;
      var u := rest.traffic;
      FifoCompose(b.toUart, t.fromHost, t.toUart, s.next.toUart, u.fromHost, u.toUart, rest.final.toUart);
      FifoCompose(b.toHost, t.fromUart, t.toHost, s.next.toHost, u.fromUart, u.toHost, rest.final.toHost);
      RunResult(rest.final, Traffic(t.fromHost + u.fromHost, t.toUart + u.toUart,
                                    t.fromUart + u.fromUart, t.toHost + u.toHost))
  }

  /** Both directions are loss-free inside the bridge: a run that ends with both FIFOs empty
      has delivered every byte it took in, in the order it took them. */
  lemma DrainedRunDeliversAll(b: Bridge, epSize: nat, events: seq<BridgeEvent>)
    requires Valid(b) && ValidEpSize(epSize)
    requires b.toUart == [] && b.toHost == []
    ensures var r := RunBridge(b, epSize, events);
      && (r.final.toUart == [] ==> r.traffic.toUart == r.traffic.fromHost)
      && (r.final.toHost == [] ==> r.traffic.toHost == r.traffic.fromUart)
  {
    var r := RunBridge(b, epSize, events);
    assert r.traffic.toUart + r.final.toUart == [] + r.traffic.fromHost;
    assert r.final.toUart == [] ==> r.traffic.toUart + r.final.toUart == r.traffic.toUart;
    assert [] + r.traffic.fromHost == r.traffic.fromHost;
    assert r.final.toHost == [] ==> r.traffic.toHost + r.final.toHost == r.traffic.toHost;
    assert [] + r.traffic.fromUart == r.traffic.fromUart;
  }

  // ---------------------------------------------------------------------------
  // Host to UART, one byte per pass.

  /** With nothing queued for the UART and the UART ready, a pass hands the byte it just read
      straight to the UART, leaves the FIFO empty, and lights the TX LEDs for a full period. */
  lemma EchoPass(b: Bridge, epSize: nat, env: PassInputs, ok: nat -> bool)
    requires Valid(b) && ValidEpSize(epSize)
    requires b.toUart == [] && env.uartReady && env.received >= 0
    ensures var r := SerialTask(b, epSize, env, ok);
      && r.effects.cdcRead
      && r.effects.uartOut == Some(ReceivedByte(env.received))
      && r.next.toUart == []
      && r.next.txPulse == PULSE_PERIOD
      && Leds.Shown(r.next.leds) & Leds.LEDS_TX != 0
  {
    var r := SerialTask(b, epSize, env, ok);
    assert Accepted(b, env.received) == [ReceivedByte(env.received)];
    assert r.effects.uartOut.ToSeq() + r.next.toUart == [ReceivedByte(env.received)];
    PassArmsPulses(b, epSize, env, ok);
    LitAfterTx(Leds.Shown(b.leds), !IsEmpty(b.toHost));
  }

  lemma LitAfterTx(s: bv8, rx: bool)
    ensures (s | Leds.LEDMASK_TX | (if rx then Leds.LEDMASK_RX else 0)) & Leds.LEDS_TX != 0
  {
  }

  // ---------------------------------------------------------------------------
  // UART bursts.

  /** The bridge after the RX interrupt has fired once for each byte, in order. */
  function RxBurst(b: Bridge, bytes: seq<bv8>, state: UsbDeviceState): (r: Bridge)
    requires Valid(b)
    ensures Valid(r)
    decreases |bytes|
  {
    if bytes == [] then b else RxBurst(UartRxIsr(b, bytes[0], state), bytes[1..], state)
  }

  /** While the device is configured, a burst keeps the bytes that fit, oldest first, and drops
      the rest; otherwise every byte is dropped. Nothing else in the bridge changes. */
  lemma {:induction false} RxBurstKeepsWhatFits(b: Bridge, bytes: seq<bv8>, state: UsbDeviceState)
    requires Valid(b)
    ensures var r := RxBurst(b, bytes, state);
      && (state == Configured ==>
            r.toHost == (b.toHost + bytes)[..Min(|b.toHost| + |bytes|, CAPACITY)])
      && (state != Configured ==> r.toHost == b.toHost)
      && r.toUart == b.toUart && r.txPulse == b.txPulse && r.rxPulse == b.rxPulse
      && r.leds == b.leds
    decreases |bytes|
  {
    if bytes != [] {
      var n := UartRxIsr(b, bytes[0], state);
      RxBurstKeepsWhatFits(n, bytes[1..], state);
      assert bytes == [bytes[0]] + bytes[1..];
      if state == Configured {
        if IsFull(b.toHost) {
          assert n == b;
          assert (b.toHost + bytes[1..])[..CAPACITY] == b.toHost;
          assert (b.toHost + bytes)[..CAPACITY] == b.toHost;
        } else {
          assert n.toHost == b.toHost + [bytes[0]];
          assert n.toHost + bytes[1..] == b.toHost + bytes;
        }
      }
    }
  }

  /** A 200-byte burst into an empty buffer of a configured device: the first 128 bytes are
      queued for the host and the last 72 are lost. */
  lemma BurstOverflow(b: Bridge, bytes: seq<bv8>)
    requires Valid(b) && b.toHost == [] && |bytes| == 200
    ensures RxBurst(b, bytes, Configured).toHost == bytes[..128]
  {
    RxBurstKeepsWhatFits(b, bytes, Configured);
    assert [] + bytes == bytes;
  }

  // ---------------------------------------------------------------------------
  // LED pulse timing.

  /** The bridge after `n` timer interrupts and nothing else. */
  function Ticks(b: Bridge, n: nat): (r: Bridge)
    requires Valid(b)
    ensures Valid(r)
    decreases n
  {
    if n == 0 then b else Ticks(TimerIsr(b), n - 1)
  }

  /** What one tick does to the TX and RX LED bits. */
  lemma TickLedBits(s: bv8, tx: bool, rx: bool)
    ensures var t := s & !(if tx then Leds.LEDMASK_TX else 0) & !(if rx then Leds.LEDMASK_RX else 0);
      && t & Leds.LEDS_TX == (if tx then 0 else s & Leds.LEDS_TX)
      && t & Leds.LEDS_RX == (if rx then 0 else s & Leds.LEDS_RX)
  {
  }

  /** A counter holding `d` counts down to zero in exactly `d` ticks and then stays there. The
      TX LED keeps its state while the TX counter is still running and is dark from the tick
      that takes the counter from 1 to 0 on; the same holds for RX. */
  lemma {:induction false} PulseCountdown(b: Bridge, n: nat)
    requires Valid(b)
    ensures var r := Ticks(b, n);
      && r.txPulse == (if n <= b.txPulse then b.txPulse - n else 0)
      && r.rxPulse == (if n <= b.rxPulse then b.rxPulse - n else 0)
      && (n < b.txPulse ==> Leds.Shown(r.leds) & Leds.LEDS_TX == Leds.Shown(b.leds) & Leds.LEDS_TX)
      && (0 < b.txPulse <= n ==> Leds.Shown(r.leds) & Leds.LEDS_TX == 0)
      && (n < b.rxPulse ==> Leds.Shown(r.leds) & Leds.LEDS_RX == Leds.Shown(b.leds) & Leds.LEDS_RX)
      && (0 < b.rxPulse <= n ==> Leds.Shown(r.leds) & Leds.LEDS_RX == 0)
      && r.toUart == b.toUart && r.toHost == b.toHost
    decreases n
  {
    if n > 0 {
      var t := TimerIsr(b);
      PulseCountdown(t, n - 1);
      TickLedBits(Leds.Shown(b.leds), b.txPulse == 1, b.rxPulse == 1);
      if b.txPulse == 0 {
        assert t.txPulse == 0;
      }
      if b.rxPulse == 0 {
        assert t.rxPulse == 0;
      }
      DarkStaysDark(t, n - 1);
    }
  }

  /** Ticks only ever put LEDs out. */
  lemma {:induction false} DarkStaysDark(b: Bridge, n: nat)
    requires Valid(b)
    ensures Leds.Shown(b.leds) & Leds.LEDS_TX == 0 ==> Leds.Shown(Ticks(b, n).leds) & Leds.LEDS_TX == 0
    ensures Leds.Shown(b.leds) & Leds.LEDS_RX == 0 ==> Leds.Shown(Ticks(b, n).leds) & Leds.LEDS_RX == 0
    decreases n
  {
    if n > 0 {
      TickLedBits(Leds.Shown(b.leds), b.txPulse == 1, b.rxPulse == 1);
      DarkStaysDark(TimerIsr(b), n - 1);
    }
  }

  /** A pulse armed by a pass and not re-armed ends after exactly PULSE_PERIOD ticks: one tick
      earlier the counter is still 1 and the TX LED still lit. */
  lemma TxPulseLastsOnePeriod(b: Bridge)
    requires Valid(b) && b.txPulse == PULSE_PERIOD
    requires Leds.Shown(b.leds) & Leds.LEDS_TX != 0
    ensures Ticks(b, PULSE_PERIOD - 1).txPulse == 1
    ensures Leds.Shown(Ticks(b, PULSE_PERIOD - 1).leds) & Leds.LEDS_TX != 0
    ensures Ticks(b, PULSE_PERIOD).txPulse == 0
    ensures Leds.Shown(Ticks(b, PULSE_PERIOD).leds) & Leds.LEDS_TX == 0
  {
    PulseCountdown(b, PULSE_PERIOD - 1);
    PulseCountdown(b, PULSE_PERIOD);
  }

  // ---------------------------------------------------------------------------
  // LED pulse timing over the device's real runs, where task passes run between ticks.

  /** The two activity pulses: TX is armed by a byte from the host, RX by bytes for it. */
  datatype Direction = TxDir | RxDir

  function Pulse(b: Bridge, dir: Direction): nat
  {
    if dir == TxDir then b.txPulse else b.rxPulse
  }

  /** The logical LED that only this direction's pulse lights. */
  function PulseLed(dir: Direction): bv8
  {
    if dir == TxDir then Leds.LEDS_TX else Leds.LEDS_RX
  }

  /** The event re-arms the direction's pulse: a pass that takes a byte from the host (TX), or
      a pass that finds bytes waiting for the host (RX). */
  predicate Rearms(b: Bridge, e: BridgeEvent, dir: Direction)
  {
    && e.Pass?
    && (if dir == TxDir then Accepted(b, e.env.received) != [] else !IsEmpty(b.toHost))
  }

  /** No event of the run re-arms the direction's pulse. */
  predicate Quiet(b: Bridge, epSize: nat, events: seq<BridgeEvent>, dir: Direction)
    requires Valid(b) && ValidEpSize(epSize)
    decreases |events|
  {
    events == []
    || (!Rearms(b, events[0], dir)
        && Quiet(BridgeStep(b, epSize, events[0]).next, epSize, events[1..], dir))
  }

  function CountTicks(events: seq<BridgeEvent>): nat
  {
    if events == [] then 0 else (if events[0].Tick? then 1 else 0) + CountTicks(events[1..])
  }

  /** One event that does not re-arm a pulse: a tick counts it down and puts its LED out on the
      step from 1 to 0; a pass or a received byte keeps both the counter and the LED. */
  lemma QuietStep(b: Bridge, epSize: nat, e: BridgeEvent, dir: Direction)
    requires Valid(b) && ValidEpSize(epSize) && !Rearms(b, e, dir)
    ensures var n := BridgeStep(b, epSize, e).next;
      && Pulse(n, dir) == (if e.Tick? && Pulse(b, dir) > 0 then Pulse(b, dir) - 1 else Pulse(b, dir))
      && Leds.Shown(n.leds) & PulseLed(dir) ==
           (if e.Tick? && Pulse(b, dir) == 1 then 0 else Leds.Shown(b.leds) & PulseLed(dir))
  {
    match e
    case Pass(env, ok) =>
      PassArmsPulses(b, epSize, env, ok);
      OtherPulseKeepsLed(Leds.Shown(b.leds), Accepted(b, env.received) != [], !IsEmpty(b.toHost), dir);
    case UartByte(_, _) =>
    case Tick =>
      TickLedBits(Leds.Shown(b.leds), b.txPulse == 1, b.rxPulse == 1);
  }

  /** Lighting the other direction's LEDs never touches this direction's own LED. */
  lemma OtherPulseKeepsLed(s: bv8, tx: bool, rx: bool, dir: Direction)
    requires dir == TxDir ==> !tx
    requires dir == RxDir ==> !rx
    ensures (s | (if tx then Leds.LEDMASK_TX else 0) | (if rx then Leds.LEDMASK_RX else 0)) & PulseLed(dir)
            == s & PulseLed(dir)
  {
  }

  /** Over a run that never re-arms a pulse holding `d`, the counter after `n` ticks is
      max(0, d - n), whatever passes and received bytes sit between the ticks; the LED keeps
      its state while the counter runs and is dark from the tick that ends the pulse on. */
  lemma {:induction false} QuietRun(b: Bridge, epSize: nat, events: seq<BridgeEvent>, dir: Direction)
    requires Valid(b) && ValidEpSize(epSize) && Quiet(b, epSize, events, dir)
    ensures var r := RunBridge(b, epSize, events).final;
      var n := CountTicks(events);
      var d := Pulse(b, dir);
      && Pulse(r, dir) == (if n <= d then d - n else 0)
      && (n < d || d == 0 ==> Leds.Shown(r.leds) & PulseLed(dir) == Leds.Shown(b.leds) & PulseLed(dir))
      && (0 < d <= n ==> Leds.Shown(r.leds) & PulseLed(dir) == 0)
    decreases |events|
  {
    if events != [] {
      var s := BridgeStep(b, epSize, events[0]).next;
      QuietStep(b, epSize, events[0], dir);
      QuietRun(s, epSize, events[1..], dir);
      assert RunBridge(b, epSize, events).final == RunBridge(s, epSize, events[1..]).final;
      assert CountTicks(events) == (if events[0].Tick? then 1 else 0) + CountTicks(events[1..]);
    }
  }

  /** A run that takes no byte from the host never re-arms the TX pulse. */
  lemma {:induction false} NoHostBytesIsQuiet(b: Bridge, epSize: nat, events: seq<BridgeEvent>)
    requires Valid(b) && ValidEpSize(epSize)
    requires RunBridge(b, epSize, events).traffic.fromHost == []
    ensures Quiet(b, epSize, events, TxDir)
    decreases |events|
  {
    if events != [] {
      var st := BridgeStep(b, epSize, events[0]);
      var rest := RunBridge(st.next, epSize, events[1..]);
      assert RunBridge(b, epSize, events).traffic.fromHost == st.traffic.fromHost + rest.traffic.fromHost;
      NoHostBytesIsQuiet(st.next, epSize, events[1..]);
    }
  }

  /** The TX pulse on the device: after the last pass that takes a byte from the host, with any
      passes, received bytes and ticks after it, the counter is max(0, PULSE_PERIOD - ticks)
      and the TX LED is dark exactly when PULSE_PERIOD ticks have passed. */
  lemma TxPulseAfterLastByte(b: Bridge, epSize: nat, env: PassInputs, ok: nat -> bool,
                             events: seq<BridgeEvent>)
    requires Valid(b) && ValidEpSize(epSize) && Accepted(b, env.received) != []
    requires RunBridge(SerialTask(b, epSize, env, ok).next, epSize, events).traffic.fromHost == []
    ensures var r := RunBridge(b, epSize, [Pass(env, ok)] + events).final;
      var n := CountTicks(events);
      && r.txPulse == (if n <= PULSE_PERIOD then PULSE_PERIOD - n else 0)
      && (Leds.Shown(r.leds) & Leds.LEDS_TX == 0 <==> n >= PULSE_PERIOD)
  {
    var a := SerialTask(b, epSize, env, ok).next;
    PassArmsTx(b, epSize, env, ok);
    NoHostBytesIsQuiet(a, epSize, events);
    ArmedQuietRun(a, epSize, events, TxDir);
    RunAfterPass(b, epSize, env, ok, events);
  }

  /** A pass that takes a host byte arms the TX pulse to the full period with the TX LED lit. */
  lemma PassArmsTx(b: Bridge, epSize: nat, env: PassInputs, ok: nat -> bool)
    requires Valid(b) && ValidEpSize(epSize) && Accepted(b, env.received) != []
    ensures var a := SerialTask(b, epSize, env, ok).next;
      a.txPulse == PULSE_PERIOD && Leds.Shown(a.leds) & Leds.LEDS_TX != 0
  {
    PassArmsPulses(b, epSize, env, ok);
    LitAfterTx(Leds.Shown(b.leds), !IsEmpty(b.toHost));
  }

  /** A pulse freshly armed, with its LED lit, followed by a run that does not re-arm it:
      the counter is max(0, PULSE_PERIOD - ticks) and the LED is dark exactly when
      PULSE_PERIOD ticks have passed. */
  lemma ArmedQuietRun(a: Bridge, epSize: nat, events: seq<BridgeEvent>, dir: Direction)
    requires Valid(a) && ValidEpSize(epSize) && Quiet(a, epSize, events, dir)
    requires Pulse(a, dir) == PULSE_PERIOD && Leds.Shown(a.leds) & PulseLed(dir) != 0
    ensures var r := RunBridge(a, epSize, events).final;
      var n := CountTicks(events);
      && Pulse(r, dir) == (if n <= PULSE_PERIOD then PULSE_PERIOD - n else 0)
      && (Leds.Shown(r.leds) & PulseLed(dir) == 0 <==> n >= PULSE_PERIOD)
  {
    QuietRun(a, epSize, events, dir);
  }

  /** A run that starts with a pass ends where the rest of the run ends from the pass's result. */
  lemma RunAfterPass(b: Bridge, epSize: nat, env: PassInputs, ok: nat -> bool, events: seq<BridgeEvent>)
    requires Valid(b) && ValidEpSize(epSize)
    ensures RunBridge(b, epSize, [Pass(env, ok)] + events).final
            == RunBridge(SerialTask(b, epSize, env, ok).next, epSize, events).final
  {
    assert ([Pass(env, ok)] + events)[1..] == events;
  }

  lemma LitAfterRx(s: bv8, tx: bool)
    ensures (s | (if tx then Leds.LEDMASK_TX else 0) | Leds.LEDMASK_RX) & Leds.LEDS_RX != 0
  {
  }

  /** The RX pulse on the device: after the last pass that finds bytes for the host, with any
      passes, UART bytes and ticks after it in which no pass finds that buffer non-empty, the
      counter is max(0, PULSE_PERIOD - ticks) and the RX LED is dark exactly when PULSE_PERIOD
      ticks have passed. */
  lemma RxPulseAfterLastFlush(b: Bridge, epSize: nat, env: PassInputs, ok: nat -> bool,
                              events: seq<BridgeEvent>)
    requires Valid(b) && ValidEpSize(epSize) && !IsEmpty(b.toHost)
    requires Quiet(SerialTask(b, epSize, env, ok).next, epSize, events, RxDir)
    ensures var r := RunBridge(b, epSize, [Pass(env, ok)] + events).final;
      var n := CountTicks(events);
      && r.rxPulse == (if n <= PULSE_PERIOD then PULSE_PERIOD - n else 0)
      && (Leds.Shown(r.leds) & Leds.LEDS_RX == 0 <==> n >= PULSE_PERIOD)
  {
    var a := SerialTask(b, epSize, env, ok).next;
    PassArmsPulses(b, epSize, env, ok);
    LitAfterRx(Leds.Shown(b.leds), Accepted(b, env.received) != []);
    ArmedQuietRun(a, epSize, events, RxDir);
    RunAfterPass(b, epSize, env, ok, events);
  }

  /** The ACT LED is lit by either pulse but put out by whichever ends first: a TX pulse about
      to end, followed by a pass that arms RX, leaves ACT dark one tick later while the RX pulse
      still has PULSE_PERIOD - 1 ticks to run and the RX LED stays lit. */
  lemma ActEndsWithFirstPulse(b: Bridge, epSize: nat, env: PassInputs, ok: nat -> bool)
    requires Valid(b) && ValidEpSize(epSize)
    requires b.txPulse == 1 && !IsEmpty(b.toHost) && Accepted(b, env.received) == []
    ensures var a := SerialTask(b, epSize, env, ok).next;
      var t := TimerIsr(a);
      && a.rxPulse == PULSE_PERIOD && Leds.Shown(a.leds) & Leds.LEDS_ACT != 0
      && t.rxPulse == PULSE_PERIOD - 1 && Leds.Shown(t.leds) & Leds.LEDS_RX != 0
      && t.txPulse == 0 && Leds.Shown(t.leds) & Leds.LEDS_ACT == 0
  {
    PassArmsPulses(b, epSize, env, ok);
    ActAfterRxThenTxEnd(Leds.Shown(b.leds));
  }

  lemma ActAfterRxThenTxEnd(s: bv8)
    ensures (s | Leds.LEDMASK_RX) & Leds.LEDS_ACT != 0
    ensures (s | Leds.LEDMASK_RX) & !Leds.LEDMASK_TX & !0 & Leds.LEDS_RX != 0
    ensures (s | Leds.LEDMASK_RX) & !Leds.LEDMASK_TX & !0 & Leds.LEDS_ACT == 0
  {
  }
}
