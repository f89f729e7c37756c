# AVRISP mk II with Serial: the USB-to-serial bridge and its dispatch

This project models the serial half of a dual-personality AVR USB firmware. At
every boot the device becomes either an AVRISP mk II compatible programmer or a
USB CDC (virtual COM port) to UART bridge. A byte kept in memory that a reset
does not clear chooses between the two, and each boot flips it.

The model is a sequential state machine over immutable values:

- `Leds` (`leds.dfy`): the board LED driver. It works on the two port bytes
  PORTF and PORTB through fixed masks. `Shown` abstracts the ports to the
  logical LED mask they light.
- `RingBuffer` (`ring_buffer.dfy`): the two 128-byte FIFOs, each as a sequence
  of bytes, oldest first. A replay of insertions and removals shows FIFO order
  and that only misuse (insert into full, remove from empty) is refused.
- `SerialBridge` (`serial_bridge.dfy`): one non-blocking pass of Serial_Task
  (read from the host, flush to the host, feed the UART). Also the UART receive
  interrupt and the 1 ms timer interrupt that ends the TX/RX LED pulses. The
  flush is given twice: a reference function, and a method that follows the C
  loop and is proved equal to it.
- `SerialLine` (`serial_line.dfy`): the CDC line events. One is the
  line-encoding handler: the UCSR1C frame mask and the ordered register writes
  that reprogram USART1. The other is the DTR handler that drives the
  auxiliary (target reset) line.
- `Dispatch` (`dispatch.dfy`): main.c. It covers the mode alternator, power-up
  order, the main loop's task choice, the USB connect, disconnect and
  configuration-changed handlers, the descriptor routing, and runs of events
  after power-up.
- `BridgeRuns` (`bridge_runs.dfy`): many passes and interrupts in a row. It
  covers end-to-end FIFO order in both directions, UART bursts that overflow
  the buffer, and the exact LED pulse timing, also when task passes and
  received bytes run between the timer ticks. Dispatch connects it to the
  device's own event runs.

Everything the USB stack, the UART and the environment decide is a parameter
of the step:

- the value CDC_Device_ReceiveByte returns;
- whether the IN endpoint is ready;
- the result of each CDC_Device_SendByte attempt, as a function from attempt
  index to success;
- whether the UART can take a byte;
- the USB device state;
- each handler's endpoint set-up result;
- the descriptor tables;
- the baud-rate divisor formula.

Interrupt routines are atomic steps between task passes.

Constants taken from headers that are not part of this model:

- CDC_TXRX_EPSIZE is a parameter `epSize` with `1 <= epSize <= 256`.
- The USART1 bit numbers are those of the ATmega16U4/32U4 datasheet's USART
  register description: UCSR1C has UPM11 = 5, UPM10 = 4, USBS1 = 3,
  UCSZ11 = 2 and UCSZ10 = 1; UCSR1A has U2X1 = 1; UCSR1B has RXCIE1 = 7,
  RXEN1 = 4 and TXEN1 = 3. The five frame bits are distinct.
- The line-coding codes are those of the USB CDC PSTN subclass specification
  (line coding structure: parity 1 = odd, 2 = even; character format
  2 = two stop bits; SetControlLineState bit 0 = DTR).

Notes on the code that the model follows:

- The UART receive interrupt queues a byte only when USB_DeviceState is
  DEVICE_STATE_Configured (USBtoSerial.c:170); it does not test the
  personality byte.
- SetupSerialHardware's comment says the target reset line is pulled high.
  The code makes the line an output driven low (USBtoSerial.c:84-86), and
  `SerialLine.AuxLineInit` models the code.
- The mode byte is advanced after the watchdog and clock set-up
  (main.c:94-103), so it is not the very first action of SetupHardware. It is
  still before LEDs_Init and USB_Init.
- The USB connect, disconnect and configuration-changed handlers call
  LEDs_SetAllLEDs (main.c:116, 123, 142), which puts out the TX and RX LEDs
  while TxLEDPulse and RxLEDPulse keep counting down. Such an event ends a
  pulse early on the LEDs only; `Dispatch.UsbEventsDarkenPulseLeds` states it,
  and the pulse timing lemmas of `BridgeRuns` cover runs without these events.
- The ACT LED is in both LEDMASK_RX and LEDMASK_TX (LEDs.h:99-101), and the timer interrupt turns off a whole mask when its pulse ends (USBtoSerial.c:255-258). So ACT goes out with whichever pulse ends first, even while the other pulse is still running; `BridgeRuns.ActEndsWithFirstPulse` states it. The pulse timing lemmas are about the TX and RX LEDs.
- The line-encoding handler ends by clearing PORTD bit 3. Whatever that pin
  held before the event is lost (USBtoSerial.c:210, 226).

## Model

| member | source | states |
|---|---|---|
| `Leds.MaskLayout` | csources/AVRISPwSerial/Board/LEDs.h:99-111 | PORTF_MASK and PORTB_MASK are disjoint; PORTF_MASK shifted by four loses no bit (0xF0); the RX and TX masks share exactly the ACT LED |
| `Leds.Init` | csources/AVRISPwSerial/Board/LEDs.h:115-122 | LED pins become outputs driven low; all other direction and output bits are kept; no LED is lit |
| `Leds.Disable` | csources/AVRISPwSerial/Board/LEDs.h:124-131 | LED pins become inputs with outputs low; all other bits are kept; no LED is lit |
| `Leds.InitDisableLastWins` | csources/AVRISPwSerial/Board/LEDs.h:115-131 | initialising after a disable equals initialising, and disabling after an initialisation equals disabling |
| `Leds.TurnOn` | csources/AVRISPwSerial/Board/LEDs.h:133-138 | the lit set grows by exactly the mapped LEDs of the mask; every pin outside `(m & 0x0F) << 4` on PORTF and `m & 0x30` on PORTB is unchanged |
| `Leds.TurnOff` | csources/AVRISPwSerial/Board/LEDs.h:140-145 | the lit set loses exactly the LEDs of the mask; every pin outside those bits is unchanged |
| `Leds.TurnOnOffIdempotent` | csources/AVRISPwSerial/Board/LEDs.h:133-145 | turning the same LEDs on twice, or off twice, is the same as doing it once |
| `Leds.SetAll` | csources/AVRISPwSerial/Board/LEDs.h:147-154 | exactly the mapped LEDs of the mask are lit; directions and non-LED pins are kept |
| `Leds.Change` | csources/AVRISPwSerial/Board/LEDs.h:156-163 | LEDs of the active mask end lit, LEDs of the mask outside it end dark, all others keep their state; non-LED pins are kept |
| `Leds.TurnOnIsChange` | csources/AVRISPwSerial/Board/LEDs.h:133-163 | turning LEDs on is a change with the mask as both arguments (identical port bytes) |
| `Leds.TurnOffIsChange` | csources/AVRISPwSerial/Board/LEDs.h:140-163 | turning LEDs off is a change with an empty active mask |
| `Leds.SetAllIsChange` | csources/AVRISPwSerial/Board/LEDs.h:147-163 | setting all LEDs is a change over every LED |
| `Leds.GetLeds` | csources/AVRISPwSerial/Board/LEDs.h:172-180 | the driver reports no lit LED whatever the ports hold |
| `Leds.PulseMasksClearAct` | csources/AVRISPwSerial/Board/LEDs.h:99-101 | turning off the RX or the TX mask also puts out the shared ACT LED |
| `RingBuffer.Insert` | csources/AVRISPwSerial/USBtoSerial.c:106 | insertion into a buffer that is not full adds exactly one byte, the new one, at the tail, keeps the older bytes in place, and stays within 128 |
| `RingBuffer.Peek` | csources/AVRISPwSerial/USBtoSerial.c:130 | the byte shown is the oldest one in the buffer: the buffer is that byte followed by the rest |
| `RingBuffer.Remove` | csources/AVRISPwSerial/USBtoSerial.c:130-143 | removal from a non-empty buffer drops exactly the byte Peek shows and keeps the rest in order |
| `RingBuffer.InsertKeepsHead` | csources/AVRISPwSerial/USBtoSerial.c:106-143 | an insertion does not change the head unless the buffer was empty, and removing before or after it gives the same buffer |
| `RingBuffer.FifoOrder` | csources/AVRISPwSerial/USBtoSerial.c:39-49 | for any run of insertions and removals that respects the preconditions, bytes taken then bytes left equal the original contents then the bytes inserted; the level is the original plus insertions minus removals and stays within 128 |
| `RingBuffer.ReplayRefusesOnlyMisuse` | csources/AVRISPwSerial/USBtoSerial.c:39-49 | a run is refused only if one of its operations finds the buffer full (insertion) or empty (removal) |
| `RingBuffer.MisuseRefused` | csources/AVRISPwSerial/USBtoSerial.c:39-49 | a run in which some operation finds the buffer full (insertion) or empty (removal), counting levels from the start, is refused: a full buffer takes no further byte |
| `RingBuffer.ReplayRefusedIffMisused` | csources/AVRISPwSerial/USBtoSerial.c:39-49 | a run is refused if and only if one of its operations misuses the buffer |
| `SerialBridge.Valid` | csources/AVRISPwSerial/USBtoSerial.c:43-54 | a valid bridge holds at most 128 bytes in each buffer and pulse counters that fit the uint16_t variables |
| `SerialBridge.SerialInit` | csources/AVRISPwSerial/USBtoSerial.c:52-91 | after the serial set-up both buffers are empty and both pulse counters are 0 |
| `SerialBridge.ReceivedByte` | csources/AVRISPwSerial/USBtoSerial.c:99-106 | the byte queued for a non-negative receive result is that result modulo 256, its low byte |
| `SerialBridge.Accepted` | csources/AVRISPwSerial/USBtoSerial.c:96-107 | a pass takes a byte from the host exactly when the USB-to-UART buffer is not full and the receive result is non-negative, and the byte taken is the low byte of that result |
| `SerialBridge.ReadFromHost` | csources/AVRISPwSerial/USBtoSerial.c:96-108 | no CDC read when the buffer is full; a non-negative result is appended at the tail, arms the TX pulse to 100 and lights the TX LEDs; a negative result changes nothing |
| `SerialBridge.FlushBudget` | csources/AVRISPwSerial/USBtoSerial.c:120-124 | the per-pass budget is at most the count and below the endpoint size, fits a byte, is 0 while the IN endpoint is busy, and is otherwise the count or EPSIZE-1 |
| `SerialBridge.SuccessRun` | csources/AVRISPwSerial/USBtoSerial.c:127-137 | the attempts before the first failure within the budget: all succeeded, and a shorter run than the budget ends at a failed attempt |
| `SerialBridge.Flush` | csources/AVRISPwSerial/USBtoSerial.c:110-139 | delivered bytes followed by the remaining bytes equal the buffer; at most min(count, EPSIZE-1) are delivered, none while the endpoint is busy; every delivered send succeeded; a failed send is handed over but stays at the head |
| `SerialBridge.FlushLoop` | csources/AVRISPwSerial/USBtoSerial.c:124-137 | the peek, send, break-or-remove loop removes exactly the run of successful sends within the budget and hands over that run plus the failed byte, if any |
| `SerialBridge.FlushShape` | csources/AVRISPwSerial/USBtoSerial.c:124-137 | the reference flush leaves and hands over the same bytes as the loop |
| `SerialBridge.SendToHost` | csources/AVRISPwSerial/USBtoSerial.c:110-139 | with bytes waiting, the RX LEDs are lit and the RX pulse armed even when the endpoint is busy; only the successfully sent prefix leaves the buffer |
| `SerialBridge.SendToUart` | csources/AVRISPwSerial/USBtoSerial.c:141-143 | at most one byte goes to the UART: the head of the buffer, exactly when the UART is ready and the buffer is non-empty |
| `SerialBridge.SerialTask` | csources/AVRISPwSerial/USBtoSerial.c:93-146 | a read happens iff there is room; UART output then the buffer equal the old buffer then the accepted byte; output happens iff the UART is ready and data is queued; delivered bytes then the buffer equal the old UART-to-USB buffer |
| `SerialBridge.PassFlushesSentPrefix` | csources/AVRISPwSerial/USBtoSerial.c:110-139 | the pass delivers at most min(count, EPSIZE-1) bytes, none while the endpoint is busy, all with successful sends; a failed byte is the new head; an early stop happens only on a failure |
| `SerialBridge.PassArmsPulses` | csources/AVRISPwSerial/USBtoSerial.c:96-115 | each pulse counter is re-armed to 100 exactly when its direction saw data and is otherwise kept; the lit set grows by the TX and RX masks accordingly; non-LED pins are kept |
| `SerialBridge.UartRxIsr` | csources/AVRISPwSerial/USBtoSerial.c:166-172 | the byte is appended iff the device is Configured and the buffer is not full; otherwise the state is unchanged |
| `SerialBridge.CountDown` | csources/AVRISPwSerial/USBtoSerial.c:255-258 | a non-zero counter drops by one, zero stays zero, and the end of the pulse is reported exactly on the step from 1 |
| `SerialBridge.TimerIsr` | csources/AVRISPwSerial/USBtoSerial.c:248-259 | each non-zero counter drops by exactly one and zero counters stay; TX (RX) LEDs go out exactly when their counter steps from 1 to 0; otherwise the ports are unchanged |
| `SerialLine.ParityBits` | csources/AVRISPwSerial/USBtoSerial.c:183-191 | odd sets UPM11 and UPM10, even sets UPM11 only, any other code sets neither; no other bit is set |
| `SerialLine.StopBits` | csources/AVRISPwSerial/USBtoSerial.c:193-194 | USBS1 is set exactly for two stop bits |
| `SerialLine.SizeBits` | csources/AVRISPwSerial/USBtoSerial.c:196-207 | 6, 7, 8 data bits give UCSZ1 = 01, 10, 11 and anything else 00 |
| `SerialLine.ConfigMask` | csources/AVRISPwSerial/USBtoSerial.c:181-207 | each frame bit of the mask is set iff its field asks for it, and no bit outside the five frame bits is set |
| `SerialLine.MaskRoundTrip` | csources/AVRISPwSerial/USBtoSerial.c:181-207 | for 5 to 8 data bits the parity, stop bits and data bits read back from the mask are the requested ones; other counts read back as 5 |
| `SerialLine.LineEncodingWrites` | csources/AVRISPwSerial/USBtoSerial.c:209-226 | nine writes: PORTD bit 3 set first, cleared last, with no PORTD write in between |
| `SerialLine.LineEncodingIsSafe` | csources/AVRISPwSerial/USBtoSerial.c:209-226 | from any register state, every USART write happens with TX held idle, and UBRR1, UCSR1A and UCSR1C are written only while UCSR1B is 0; the USART ends with the requested frame, divisor, double speed and RX interrupt, RX and TX on, and the TX pin released |
| `SerialLine.EarlyBaudWriteIsUnsafe` | csources/AVRISPwSerial/USBtoSerial.c:212-218 | writing UBRR1 before UCSR1B is zeroed breaks the rules whenever the USART was running, so the handler's order matters |
| `SerialLine.AuxLineInit` | csources/AVRISPwSerial/USBtoSerial.c:84-86 | the auxiliary line's pins become outputs driven low; other pins are kept |
| `SerialLine.AuxLineInitIsDtrOff` | csources/AVRISPwSerial/USBtoSerial.c:84-86 | start-up leaves the auxiliary line's output bits exactly as a control-line request with DTR clear would |
| `SerialLine.ControlLineStateChanged` | csources/AVRISPwSerial/USBtoSerial.c:233-245 | the auxiliary pins are driven high iff the host's DTR bit is set; other pins are kept |
| `SerialLine.ControlLineLastWins` | csources/AVRISPwSerial/USBtoSerial.c:233-245 | the auxiliary line keeps no memory of earlier DTR events: two events leave the port as the second alone would |
| `Dispatch.SelectConfiguration` | csources/AVRISPwSerial/main.c:145-149 | the new byte is 0 or 1, and it is 1 exactly when the old byte was even (so 255 gives 0) |
| `Dispatch.SelectConfigurationTwice` | csources/AVRISPwSerial/main.c:148 | two boots take any byte to its parity |
| `Dispatch.BootsAlternate` | csources/AVRISPwSerial/main.c:148 | after n >= 1 boots from x the byte is (x + n) mod 2; from 0 the boots give 1, 0, 1, 0, ... |
| `Dispatch.PowerUp` | csources/AVRISPwSerial/main.c:61-110 | the byte is advanced once and first; LEDs_Init and USB_Init follow; serial set-up happens iff the bridge is selected, V2Protocol_Init iff the programmer is; LEDs end showing "not ready" just before interrupts are enabled; the bridge starts empty |
| `Dispatch.BootSteps` | csources/AVRISPwSerial/main.c:64-109 | the start-up sequence chooses the byte exactly once, before LEDs_Init and USB_Init, runs exactly one personality's set-up and ends with "not ready" LEDs then interrupts on |
| `Dispatch.ApplyBootStep` | csources/AVRISPwSerial/main.c:64-109 | only SelectConfiguration writes the byte, advancing it; only SetupSerialHardware empties the buffers, and no other start-up action touches them |
| `Dispatch.PowerUpFollowsSteps` | csources/AVRISPwSerial/main.c:61-109 | the device PowerUp gives is exactly what running its start-up actions in order produces from the stored byte, the ports' power-up values and zeroed statics |
| `Dispatch.BootLeds` | csources/AVRISPwSerial/main.c:73 | after LEDs_Init and SetAll(NOTREADY) only the not-ready LED is lit; non-LED pins are as LEDs_Init left them |
| `Dispatch.ResetAlternatesPersonality` | csources/AVRISPwSerial/main.c:41-149 | across a reset the personality flips, and the bridge comes up exactly when the stored byte was even |
| `Dispatch.MainLoopIteration` | csources/AVRISPwSerial/main.c:76-87 | each iteration runs Serial_Task iff the byte is non-zero and AVRISP_Task otherwise, always followed by USB_USBTask; the byte is not written |
| `Dispatch.Connect` | csources/AVRISPwSerial/main.c:113-117 | the LEDs show "enumerating"; nothing else changes |
| `Dispatch.Disconnect` | csources/AVRISPwSerial/main.c:120-124 | the LEDs show "not ready"; nothing else changes |
| `Dispatch.DisconnectAfterConnect` | csources/AVRISPwSerial/main.c:113-124 | a disconnect after a connect leaves the device exactly as a disconnect alone: the last event decides the LEDs |
| `Dispatch.ConfigurationChanged` | csources/AVRISPwSerial/main.c:127-143 | only the current personality's handler runs; the LEDs show "ready" iff it succeeded and "error" otherwise |
| `Dispatch.GetDescriptor` | csources/AVRISPwSerial/main.c:163-175 | descriptor requests go to the serial table iff the byte is non-zero, otherwise to the programmer's table |
| `Dispatch.DispatchersAgree` | csources/AVRISPwSerial/main.c:76-175 | the loop task, the configuration handler and the descriptor table always belong to the same personality |
| `Dispatch.Step` | csources/AVRISPwSerial/main.c:76-143 | no event after power-up writes the byte, and the bridge stays within its bounds |
| `Dispatch.Run` | csources/AVRISPwSerial/main.c:76-143 | over any run of events the byte is never rewritten and the bridge stays within its bounds |
| `Dispatch.IspRunLeavesBridgeIdle` | csources/AVRISPwSerial/main.c:79-84 | in the programmer personality no run touches the bridge buffers or pulse counters |
| `Dispatch.ModeStaysBinary` | csources/AVRISPwSerial/main.c:148 | from power-up on, the byte stays in {0, 1} whatever happens |
| `Dispatch.SerialStepIsBridgeStep` | csources/AVRISPwSerial/main.c:76-84 | in the bridge personality a loop pass, a UART byte or a timer tick moves the bridge exactly as the bridge's own step does and leaves the byte alone |
| `Dispatch.SerialRunIsBridgeRun` | csources/AVRISPwSerial/main.c:76-84 | any run of loop passes, UART bytes and ticks in the bridge personality is a bridge run, so FIFO order and pulse timing carry over to the device |
| `Dispatch.UsbEventsDarkenPulseLeds` | csources/AVRISPwSerial/main.c:113-143 | a connect, disconnect or configuration-changed event leaves the TX and RX LEDs dark while both pulse counters and both buffers are kept |
| `BridgeRuns.BridgeStep` | csources/AVRISPwSerial/USBtoSerial.c:93-172 | one pass or interrupt keeps both FIFOs in order: bytes out then bytes queued equal bytes queued before then bytes in, in each direction |
| `BridgeRuns.FifoCompose` | csources/AVRISPwSerial/USBtoSerial.c:93-172 | helper of `RunBridge`: two consecutive FIFO stretches compose into one, outputs and inputs each concatenating in order |
| `BridgeRuns.RunBridge` | csources/AVRISPwSerial/USBtoSerial.c:93-259 | over any run of passes and interrupts, both directions keep FIFO order: bytes given out then still queued equal bytes queued at the start then bytes taken in |
| `BridgeRuns.DrainedRunDeliversAll` | csources/AVRISPwSerial/USBtoSerial.c:93-172 | a run from empty buffers that ends with a buffer empty has delivered exactly the bytes it took in, in order |
| `BridgeRuns.EchoPass` | csources/AVRISPwSerial/USBtoSerial.c:96-143 | with an empty USB-to-UART buffer and a ready UART, the byte read in a pass goes straight to the UART and the TX LED is lit for a full period |
| `BridgeRuns.RxBurstKeepsWhatFits` | csources/AVRISPwSerial/USBtoSerial.c:166-172 | while Configured a burst keeps the first bytes that fit in 128 and drops the rest; otherwise all are dropped; nothing else changes |
| `BridgeRuns.BurstOverflow` | csources/AVRISPwSerial/USBtoSerial.c:49 | 200 bytes into an empty buffer keep exactly the first 128 |
| `BridgeRuns.PulseCountdown` | csources/AVRISPwSerial/USBtoSerial.c:248-259 | a counter at d is d - n after n <= d ticks and 0 afterwards; its LED keeps its state while the counter runs and is dark from the 1-to-0 tick on |
| `BridgeRuns.DarkStaysDark` | csources/AVRISPwSerial/USBtoSerial.c:254-258 | timer ticks never light the TX or RX LED |
| `BridgeRuns.TxPulseLastsOnePeriod` | csources/AVRISPwSerial/USBtoSerial.c:248-259 | with ticks alone, a pulse armed at 100 still shows after 99 ticks and has ended, LED dark, after exactly 100 |
| `BridgeRuns.QuietStep` | csources/AVRISPwSerial/USBtoSerial.c:96-259 | an event that does not re-arm a pulse keeps its counter and LED, except that a tick counts it down and puts the LED out on the step from 1 to 0 |
| `BridgeRuns.QuietRun` | csources/AVRISPwSerial/USBtoSerial.c:93-259 | over any run of passes, received bytes and ticks that never re-arms a pulse at d, the counter ends at max(0, d - ticks), and the LED keeps its state while the counter runs and is dark once it has ended |
| `BridgeRuns.ArmedQuietRun` | csources/AVRISPwSerial/USBtoSerial.c:93-259 | a pulse at the full period with its LED lit, followed by a run that never re-arms it, ends at max(0, 100 - ticks) with the LED dark exactly when 100 ticks have passed |
| `BridgeRuns.NoHostBytesIsQuiet` | csources/AVRISPwSerial/USBtoSerial.c:97-107 | a run that takes no byte from the host never re-arms the TX pulse |
| `BridgeRuns.TxPulseAfterLastByte` | csources/AVRISPwSerial/USBtoSerial.c:97-259 | after the last pass that takes a host byte, with any passes, UART bytes and ticks after it, TxLEDPulse is max(0, 100 - ticks) and the TX LED is dark exactly when 100 ticks have passed |
| `BridgeRuns.RxPulseAfterLastFlush` | csources/AVRISPwSerial/USBtoSerial.c:110-259 | after the last pass that finds bytes for the host, RxLEDPulse is max(0, 100 - ticks) and the RX LED is dark exactly when 100 ticks have passed, whatever passes and UART bytes come between the ticks |
| `BridgeRuns.ActEndsWithFirstPulse` | csources/AVRISPwSerial/USBtoSerial.c:110-259 | the ACT LED, shared by both pulse masks, goes out with whichever pulse ends first: a TX pulse at 1 followed by a pass that arms RX leaves ACT dark one tick later, while RX has 99 ticks left and its LED is lit |

## Left out

- Timer 3 set-up and its counter reset (USBtoSerial.c:78-82, 251-252), watchdog and clock prescaler (main.c:94-101): hardware configuration with no effect on the modelled state; the timer interrupt is simply a step.
- LEDs_ToggleLEDs (LEDs.h:165-170): it relies on the AVR rule that writing a PIN register toggles the output, which is hardware behaviour outside this model.
- The RingBuffer library's internals (head and tail pointers, the count): a buffer is its contents.
- The USB stack: CDC_Device_ReceiveByte, CDC_Device_SendByte, CDC_Device_USBTask, Endpoint_SelectEndpoint and Endpoint_IsINReady, USB_USBTask, USB_Init, EVENT_USB_Device_ControlRequest (USBtoSerial.c:156-161) and CDC_Device_ConfigureEndpoints (USBtoSerial.c:150-154). Their results are inputs, and their own effects are not modelled.
- The programmer personality (AVRISP-MKII.c is not part of this model): V2Protocol_Init, AVRISP_Task with its LED writes, its endpoint set-up and its descriptor table. Only its configuration result and its table lookup appear, as inputs.
- SERIAL_2X_UBBRVAL: a function parameter `divisor` that gives the UBRR1 value for a baud rate.
- Serial_IsSendReady, Serial_SendByte and UDR1: the UART's readiness and received byte are inputs, and the byte given to the UART is an output.
- Interrupt preemption: each interrupt is an atomic step between task passes, so an interrupt in the middle of a flush loop is not represented.
- The ".noinit" memory that survives a reset but not a power loss: the byte before a boot is an arbitrary parameter.
- AUX_LINE_PORT, AUX_LINE_DDR and AUX_LINE_MASK come from a board header: the auxiliary-line functions take the port bytes and the mask as parameters, and `Dispatch.Device` does not hold that port.
- The build without SERIAL_ENABLE (main.c:66-71, 79-84, 132-139, 168-172): the model assumes the macro is defined. Without it the device is always the programmer, whatever the byte holds, and the bridge never runs.
- USB device-state transitions: the state is an input of the receive interrupt only.
- In the programmer personality `Dispatch.Step` treats the two bridge interrupts as no-ops. The timer interrupt is enabled only by the bridge set-up. The UART receive interrupt is enabled by that set-up or by a stray CDC line-coding request, since EVENT_USB_Device_ControlRequest (USBtoSerial.c:157-161) is not gated on the personality and the line-encoding handler sets RXCIE1 (USBtoSerial.c:223). It then queues nothing because the buffer was never initialised. That rests on the ring-buffer library's behaviour for an uninitialised buffer, and that library is not part of this model.
- `SerialBridge.Valid` bounds the 16-bit pulse counters by 100 as natural numbers. Nothing ever stores a larger value, so 16-bit wrap-around never arises.
