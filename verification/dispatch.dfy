/**
  The dual-personality dispatch of main.c.

  A byte kept in memory that a reset does not clear (`activeConfig`) chooses
  the personality: 0 is the AVRISP mkII programmer, anything else the
  USB-to-serial bridge. Every boot advances it once, in SetupHardware, before
  the LED driver and the USB stack start; afterwards it is only read, by the
  main loop, the configuration-changed handler and the descriptor callback.

  The programmer side (V2Protocol_Init, AVRISP_Task, its endpoint set-up and
  descriptors) is not part of this model: its handler result and its
  descriptor table are inputs, and a programmer task pass leaves the bridge
  state alone. USB_USBTask and CDC_Device_USBTask belong to the USB stack. The
  USB events they raise (connect, disconnect, configuration changed) are
  separate `Event`s here; the CDC line-encoding and control-line handlers they
  call are modelled in SerialLine, on the UART and auxiliary-port registers,
  which `Device` does not hold.
*/
module Dispatch {
  import opened Wrappers
  import Leds
  import SerialBridge
  import BridgeRuns

  /** SelectConfiguration: the byte plus one, modulo two, computed at C's int width, so the
      byte 255 becomes 0 rather than wrapping to 0 first and then becoming 1. */
  function SelectConfiguration(x: bv8): (r: bv8)
    ensures r == 0 || r == 1
    ensures r == 1 <==> x % 2 == 0
  {
    ((x as int + 1) % 2) as bv8
  }

  /** Two boots in a row take any stored byte to its parity. */
  lemma SelectConfigurationTwice(x: bv8)
    ensures SelectConfiguration(SelectConfiguration(x)) == x % 2
  {
  }

  /** The stored byte after `n` boots that started from `x`. */
  function ModeAfterBoots(x: bv8, n: nat): bv8
  {
    if n == 0 then x else SelectConfiguration(ModeAfterBoots(x, n - 1))
  }

  /** After at least one boot the byte is the parity of the start value plus the number of
      boots; from a cleared byte the boots give 1, 0, 1, 0, ... */
  lemma {:induction false} BootsAlternate(x: bv8, n: nat)
    requires n >= 1
    ensures ModeAfterBoots(x, n) as int == (x as int + n) % 2
    ensures x == 0 ==> ModeAfterBoots(x, n) as int == n % 2
  {
    if n == 1 {
      SelectAsInt(x);
    } else {
      BootsAlternate(x, n - 1);
      var m := ModeAfterBoots(x, n - 1);
      SelectAsInt(m);
      ParityStep(x as int + n - 1);
    }
  }

  lemma SelectAsInt(y: bv8)
    ensures SelectConfiguration(y) as int == (y as int + 1) % 2
  {
  }

  lemma ParityStep(a: int)
    ensures (a % 2 + 1) % 2 == (a + 1) % 2
  {
  }

  // ---------------------------------------------------------------------------
  // Personalities.

  datatype Personality = IspProgrammer | SerialBridgeMode

  /** How main.c reads the byte: any non-zero value selects the serial bridge. */
  function PersonalityOf(activeConfig: bv8): Personality
  {
    if activeConfig != 0 then SerialBridgeMode else IspProgrammer
  }

  /** The device as the dispatch sees it: the persistent byte and the bridge state, whose LED
      ports are the board's LEDs in both personalities. */
  datatype Device = Device(activeConfig: bv8, bridge: SerialBridge.Bridge)

  predicate ValidDevice(d: Device)
  {
    SerialBridge.Valid(d.bridge)
  }

  // ---------------------------------------------------------------------------
  // Power-up.

  /** The start-up actions of main, in the order they happen. */
  datatype BootStep =
    | SelectConfig
    | LedsInit
    | UsbInit
    | SerialHardwareSetup
    | V2ProtocolInit
    | SetAllLeds(mask: bv8)
    | InterruptsEnabled

  datatype Boot = Boot(device: Device, steps: seq<BootStep>)

  /** main up to its loop: SetupHardware (SelectConfiguration, LEDs_Init, USB_Init), then
      SetupSerialHardware or V2Protocol_Init by personality, then all LEDs to "not ready" and
      interrupts on. `persisted` is whatever the byte held before the reset and `ports` the LED
      ports' power-up values. The bridge buffers start empty: they are either initialised by
      SetupSerialHardware or, in the programmer personality, left uninitialised and never
      given a byte (see `Step`). */
  function PowerUp(persisted: bv8, ports: Leds.LedPorts): (r: Boot)
    ensures r.device.activeConfig == SelectConfiguration(persisted)
    // The byte is chosen first and only once, so LEDs_Init and USB_Init come after it.
    ensures r.steps != [] && r.steps[0] == SelectConfig && SelectConfig !in r.steps[1..]
    ensures LedsInit in r.steps[1..] && UsbInit in r.steps[1..]
    ensures SerialHardwareSetup in r.steps <==> PersonalityOf(r.device.activeConfig) == SerialBridgeMode
    ensures V2ProtocolInit in r.steps <==> PersonalityOf(r.device.activeConfig) == IspProgrammer
    ensures |r.steps| >= 2 && r.steps[|r.steps| - 2] == SetAllLeds(Leds.LEDMASK_USB_NOTREADY)
    ensures r.steps[|r.steps| - 1] == InterruptsEnabled
    ensures ValidDevice(r.device)
    ensures Leds.Shown(r.device.bridge.leds) == Leds.LEDMASK_USB_NOTREADY
    ensures Leds.SameNonLedPins(Leds.Init(ports), r.device.bridge.leds)
    ensures r.device.bridge.toUart == [] && r.device.bridge.toHost == []
  {
    var mode := SelectConfiguration(persisted);
    Boot(Device(mode, SerialBridge.SerialInit(BootLeds(ports))), BootSteps(mode))
  }

  /** The start-up actions for a chosen byte. */
  function BootSteps(mode: bv8): (steps: seq<BootStep>)
    ensures steps != [] && steps[0] == SelectConfig && SelectConfig !in steps[1..]
    ensures LedsInit in steps[1..] && UsbInit in steps[1..]
    ensures SerialHardwareSetup in steps <==> PersonalityOf(mode) == SerialBridgeMode
    ensures V2ProtocolInit in steps <==> PersonalityOf(mode) == IspProgrammer
    ensures |steps| >= 2 && steps[|steps| - 2] == SetAllLeds(Leds.LEDMASK_USB_NOTREADY)
    ensures steps[|steps| - 1] == InterruptsEnabled
  {
    var setup := if mode != 0 then SerialHardwareSetup else V2ProtocolInit;
    [SelectConfig, LedsInit, UsbInit, setup, SetAllLeds(Leds.LEDMASK_USB_NOTREADY), InterruptsEnabled]
  }

  /** What each start-up action does to the device. USB_Init, V2Protocol_Init and enabling
      interrupts touch nothing this model tracks; SetupSerialHardware empties both buffers. */
  function ApplyBootStep(d: Device, step: BootStep): (r: Device)
    ensures step != SelectConfig ==> r.activeConfig == d.activeConfig
    ensures step == SelectConfig ==> r.activeConfig == SelectConfiguration(d.activeConfig)
    ensures step.SerialHardwareSetup? ==> r.bridge.toUart == [] && r.bridge.toHost == []
    ensures !step.SerialHardwareSetup? ==> r.bridge.toUart == d.bridge.toUart && r.bridge.toHost == d.bridge.toHost
  {
    match step
    case SelectConfig => d.(activeConfig := SelectConfiguration(d.activeConfig))
    case LedsInit => WithLeds(d, Leds.Init(d.bridge.leds))
    case UsbInit => d
    case SerialHardwareSetup => d.(bridge := d.bridge.(toUart := [], toHost := []))
    case V2ProtocolInit => d
    case SetAllLeds(mask) => WithLeds(d, Leds.SetAll(d.bridge.leds, mask))
    case InterruptsEnabled => d
  }

  /** The device after a list of start-up actions, in order. */
  function RunBootSteps(d: Device, steps: seq<BootStep>): Device
    decreases |steps|
  {
    if steps == [] then d else RunBootSteps(ApplyBootStep(d, steps[0]), steps[1..])
  }

  /** The device PowerUp describes is what its own list of start-up actions produces, started
      from the stored byte, the LED ports' power-up values and the zero-initialised statics
      (empty buffers, pulse counters 0). */
  lemma PowerUpFollowsSteps(persisted: bv8, ports: Leds.LedPorts)
    ensures var b := PowerUp(persisted, ports);
      b.device == RunBootSteps(Device(persisted, SerialBridge.SerialInit(ports)), b.steps)
  {
    var mode := SelectConfiguration(persisted);
    var steps := BootSteps(mode);
    var d0 := Device(persisted, SerialBridge.SerialInit(ports));
    var d1 := ApplyBootStep(d0, SelectConfig);
    var d2 := ApplyBootStep(d1, LedsInit);
    var d3 := ApplyBootStep(d2, UsbInit);
    var d4 := ApplyBootStep(d3, steps[3]);
    var d5 := ApplyBootStep(d4, steps[4]);
    var d6 := ApplyBootStep(d5, steps[5]);
    assert RunBootSteps(d6, steps[6..]) == d6;
    assert RunBootSteps(d0, steps) == RunBootSteps(d1, steps[1..]);
    assert steps[1..][1..] == steps[2..];
    assert RunBootSteps(d1, steps[1..]) == RunBootSteps(d2, steps[2..]);
    assert steps[2..][1..] == steps[3..];
    assert RunBootSteps(d2, steps[2..]) == RunBootSteps(d3, steps[3..]);
    assert steps[3..][1..] == steps[4..];
    assert RunBootSteps(d3, steps[3..]) == RunBootSteps(d4, steps[4..]);
    assert steps[4..][1..] == steps[5..];
    assert RunBootSteps(d4, steps[4..]) == RunBootSteps(d5, steps[5..]);
    assert steps[5..][1..] == steps[6..];
    assert RunBootSteps(d5, steps[5..]) == RunBootSteps(d6, steps[6..]);
  }

  /** The LED ports after LEDs_Init and LEDs_SetAllLEDs(LEDMASK_USB_NOTREADY). */
  function BootLeds(ports: Leds.LedPorts): (r: Leds.LedPorts)
    ensures Leds.Shown(r) == Leds.LEDMASK_USB_NOTREADY
    ensures Leds.SameNonLedPins(Leds.Init(ports), r)
  {
    Leds.SetAll(Leds.Init(ports), Leds.LEDMASK_USB_NOTREADY)
  }

  /** A reset keeps the byte, so consecutive boots alternate between the two personalities, and
      the bridge comes up exactly when the byte held an even value. */
  lemma ResetAlternatesPersonality(d: Device, ports: Leds.LedPorts)
    ensures var first := PowerUp(d.activeConfig, ports).device;
      var second := PowerUp(first.activeConfig, ports).device;
      && (PersonalityOf(first.activeConfig) == SerialBridgeMode <==> d.activeConfig % 2 == 0)
      && PersonalityOf(second.activeConfig) != PersonalityOf(first.activeConfig)
  {
  }

  // ---------------------------------------------------------------------------
  // The main loop and the USB events.

  /** The tasks of one main-loop iteration. */
  datatype Task = SerialTaskRun | AvrispTaskRun | UsbTaskRun

  /** Whose task a task is; USB_USBTask belongs to neither personality. */
  function TaskOwner(t: Task): Option<Personality>
  {
    match t
    case SerialTaskRun => Some(SerialBridgeMode)
    case AvrispTaskRun => Some(IspProgrammer)
    case UsbTaskRun => None
  }

  datatype LoopResult = LoopResult(next: Device, ran: seq<Task>, effects: Option<SerialBridge.PassEffects>)

  /** One iteration of main's loop: the personality's task, then USB_USBTask. */
  function MainLoopIteration(d: Device, epSize: nat, env: SerialBridge.PassInputs, ok: nat -> bool)
    : (r: LoopResult)
    requires ValidDevice(d) && SerialBridge.ValidEpSize(epSize)
    ensures ValidDevice(r.next)
    ensures r.next.activeConfig == d.activeConfig
    ensures |r.ran| == 2 && r.ran[1] == UsbTaskRun
    ensures TaskOwner(r.ran[0]) == Some(PersonalityOf(d.activeConfig))
    ensures r.effects.Some? <==> d.activeConfig != 0
    ensures d.activeConfig != 0 ==>
              var p := SerialBridge.SerialTask(d.bridge, epSize, env, ok);
              r.next.bridge == p.next && r.effects == Some(p.effects)
    ensures d.activeConfig == 0 ==> r.next == d
  {
    if d.activeConfig != 0 then
      var p := SerialBridge.SerialTask(d.bridge, epSize, env, ok);
      LoopResult(d.(bridge := p.next), [SerialTaskRun, UsbTaskRun], Some(p.effects))
    else
      LoopResult(d, [AvrispTaskRun, UsbTaskRun], None)
  }

  /** The LED ports replaced by `leds`, the rest of the device kept. */
  function WithLeds(d: Device, leds: Leds.LedPorts): Device
  {
    d.(bridge := d.bridge.(leds := leds))
  }

  /** EVENT_USB_Device_Connect: the LEDs show "enumerating". */
  function Connect(d: Device): (r: Device)
    ensures Leds.Shown(r.bridge.leds) == Leds.LEDMASK_USB_ENUMERATING
    ensures Leds.SameNonLedPins(d.bridge.leds, r.bridge.leds)
    ensures r == WithLeds(d, r.bridge.leds)
  {
    WithLeds(d, Leds.SetAll(d.bridge.leds, Leds.LEDMASK_USB_ENUMERATING))
  }

  /** EVENT_USB_Device_Disconnect: the LEDs show "not ready". */
  function Disconnect(d: Device): (r: Device)
    ensures Leds.Shown(r.bridge.leds) == Leds.LEDMASK_USB_NOTREADY
    ensures Leds.SameNonLedPins(d.bridge.leds, r.bridge.leds)
    ensures r == WithLeds(d, r.bridge.leds)
  {
    WithLeds(d, Leds.SetAll(d.bridge.leds, Leds.LEDMASK_USB_NOTREADY))
  }

  /** Only the last USB connection event decides the LEDs: a disconnect after a connect leaves
      the device as a disconnect alone would. */
  lemma DisconnectAfterConnect(d: Device)
    ensures Disconnect(Connect(d)) == Disconnect(d)
  {
    Leds.ShownDeterminesPorts(Disconnect(Connect(d)).bridge.leds, Disconnect(d).bridge.leds);
  }

  datatype ConfigResult = ConfigResult(next: Device, handler: Personality)

  /** EVENT_USB_Device_ConfigurationChanged: only the current personality's endpoint set-up
      runs (`serialOk` and `ispOk` are what each would report), and the LEDs show "ready" when
      it succeeded and "error" otherwise. */
  function ConfigurationChanged(d: Device, serialOk: bool, ispOk: bool): (r: ConfigResult)
    ensures r.handler == PersonalityOf(d.activeConfig)
    ensures var success := if r.handler == SerialBridgeMode then serialOk else ispOk;
      Leds.Shown(r.next.bridge.leds) == (if success then Leds.LEDMASK_USB_READY else Leds.LEDMASK_USB_ERROR)
    ensures Leds.SameNonLedPins(d.bridge.leds, r.next.bridge.leds)
    ensures r.next == WithLeds(d, r.next.bridge.leds)
  {
    var configSuccess := if d.activeConfig != 0 then serialOk else ispOk;
    var mask := if configSuccess then Leds.LEDMASK_USB_READY else Leds.LEDMASK_USB_ERROR;
    ConfigResult(WithLeds(d, Leds.SetAll(d.bridge.leds, mask)), PersonalityOf(d.activeConfig))
  }

  /** CALLBACK_USB_GetDescriptor: the request goes to the current personality's descriptor
      lookup, given here as a function from (wValue, wIndex) to its answer. */
  function GetDescriptor<D>(activeConfig: bv8, wValue: bv16, wIndex: bv16,
                            serialTable: (bv16, bv16) -> D, ispTable: (bv16, bv16) -> D): (r: D)
    ensures PersonalityOf(activeConfig) == SerialBridgeMode ==> r == serialTable(wValue, wIndex)
    ensures PersonalityOf(activeConfig) == IspProgrammer ==> r == ispTable(wValue, wIndex)
  {
    if activeConfig != 0 then serialTable(wValue, wIndex) else ispTable(wValue, wIndex)
  }

  /** The three dispatchers never disagree: the task the loop runs, the configuration handler
      and the descriptor table all belong to the same personality. */
  lemma DispatchersAgree(d: Device, epSize: nat, env: SerialBridge.PassInputs, ok: nat -> bool,
                         serialOk: bool, ispOk: bool, wValue: bv16, wIndex: bv16)
    requires ValidDevice(d) && SerialBridge.ValidEpSize(epSize)
    ensures var owner := TaskOwner(MainLoopIteration(d, epSize, env, ok).ran[0]);
      var table := GetDescriptor(d.activeConfig, wValue, wIndex,
                                 (v: bv16, i: bv16) => SerialBridgeMode, (v: bv16, i: bv16) => IspProgrammer);
      && owner == Some(ConfigurationChanged(d, serialOk, ispOk).handler)
      && owner == Some(table)
  {
  }

  // ---------------------------------------------------------------------------
  // Runs of events after power-up.

  /** What can happen between two points of the main loop. The timer interrupt is enabled only
      by the bridge's set-up. The UART receive interrupt is enabled by that set-up or by a stray
      CDC line-coding request, which reaches the line-encoding handler in either personality;
      in the programmer personality it then queues nothing into the uninitialised buffer, so
      both interrupts leave the device as it is there. */
  datatype Event =
    | LoopPass(env: SerialBridge.PassInputs, ok: nat -> bool)
    | UartRx(byte: bv8, state: SerialBridge.UsbDeviceState)
    | TimerTick
    | UsbConnect
    | UsbDisconnect
    | UsbConfigurationChanged(serialOk: bool, ispOk: bool)

  function Step(d: Device, epSize: nat, e: Event): (r: Device)
    requires ValidDevice(d) && SerialBridge.ValidEpSize(epSize)
    ensures ValidDevice(r)
    ensures r.activeConfig == d.activeConfig
  {
    match e
    case LoopPass(env, ok) => MainLoopIteration(d, epSize, env, ok).next
    case UartRx(byte, state) =>
      if d.activeConfig != 0 then d.(bridge := SerialBridge.UartRxIsr(d.bridge, byte, state)) else d
    case TimerTick =>
      if d.activeConfig != 0 then d.(bridge := SerialBridge.TimerIsr(d.bridge)) else d
    case UsbConnect => Connect(d)
    case UsbDisconnect => Disconnect(d)
    case UsbConfigurationChanged(serialOk, ispOk) => ConfigurationChanged(d, serialOk, ispOk).next
  }

  /** The device after a run of events; the personality byte is never written after power-up
      and the bridge stays within its bounds. */
  function Run(d: Device, epSize: nat, events: seq<Event>): (r: Device)
    requires ValidDevice(d) && SerialBridge.ValidEpSize(epSize)
    ensures ValidDevice(r)
    ensures r.activeConfig == d.activeConfig
    decreases |events|
  {
    if events == [] then d else Run(Step(d, epSize, events[0]), epSize, events[1..])
  }

  /** In the programmer personality no run of events touches the bridge's buffers or pulse
      counters; only the LEDs change. */
  lemma {:induction false} IspRunLeavesBridgeIdle(d: Device, epSize: nat, events: seq<Event>)
    requires ValidDevice(d) && SerialBridge.ValidEpSize(epSize)
    requires d.activeConfig == 0
    ensures var r := Run(d, epSize, events);
      && r.bridge.toUart == d.bridge.toUart && r.bridge.toHost == d.bridge.toHost
      && r.bridge.txPulse == d.bridge.txPulse && r.bridge.rxPulse == d.bridge.rxPulse
    decreases |events|
  {
    if events != [] {
      var d1 := Step(d, epSize, events[0]);
      assert d1.bridge.toUart == d.bridge.toUart && d1.bridge.toHost == d.bridge.toHost;
      assert d1.bridge.txPulse == d.bridge.txPulse && d1.bridge.rxPulse == d.bridge.rxPulse;
      IspRunLeavesBridgeIdle(d1, epSize, events[1..]);
    }
  }

  /** From power-up on, the personality byte stays in {0, 1} whatever happens. */
  lemma ModeStaysBinary(persisted: bv8, ports: Leds.LedPorts, epSize: nat, events: seq<Event>)
    requires SerialBridge.ValidEpSize(epSize)
    ensures var d := PowerUp(persisted, ports).device;
      var r := Run(d, epSize, events);
      r.activeConfig == 0 || r.activeConfig == 1
  {
  }

  // ---------------------------------------------------------------------------
  // The bridge personality's runs are the bridge runs.

  /** The events that are steps of the bridge itself: a loop pass and its two interrupts. */
  predicate IsBridgeEvent(e: Event)
  {
    e.LoopPass? || e.UartRx? || e.TimerTick?
  }

  function ToBridgeEvent(e: Event): BridgeRuns.BridgeEvent
    requires IsBridgeEvent(e)
  {
    if e.LoopPass? then BridgeRuns.Pass(e.env, e.ok)
    else if e.UartRx? then BridgeRuns.UartByte(e.byte, e.state)
    else BridgeRuns.Tick
  }

  function ToBridgeEvents(events: seq<Event>): (r: seq<BridgeRuns.BridgeEvent>)
    requires forall i :: 0 <= i < |events| ==> IsBridgeEvent(events[i])
    ensures |r| == |events|
    ensures forall i :: 0 <= i < |events| ==> r[i] == ToBridgeEvent(events[i])
    decreases |events|
  {
    if events == [] then [] else [ToBridgeEvent(events[0])] + ToBridgeEvents(events[1..])
  }

  /** In the bridge personality a loop pass, a received byte or a tick moves the bridge exactly
      as the bridge's own step does, and touches nothing else of the device. */
  lemma SerialStepIsBridgeStep(d: Device, epSize: nat, e: Event)
    requires ValidDevice(d) && SerialBridge.ValidEpSize(epSize)
    requires d.activeConfig != 0 && IsBridgeEvent(e)
    ensures Step(d, epSize, e) == d.(bridge := BridgeRuns.BridgeStep(d.bridge, epSize, ToBridgeEvent(e)).next)
  {
  }

  /** A run of such events after power-up is a bridge run, so the bridge's end-to-end FIFO
      order and pulse timing hold for the device's own runs. */
  lemma {:induction false} SerialRunIsBridgeRun(d: Device, epSize: nat, events: seq<Event>)
    requires ValidDevice(d) && SerialBridge.ValidEpSize(epSize) && d.activeConfig != 0
    requires forall i :: 0 <= i < |events| ==> IsBridgeEvent(events[i])
    ensures Run(d, epSize, events) == d.(bridge := BridgeRuns.RunBridge(d.bridge, epSize, ToBridgeEvents(events)).final)
    decreases |events|
  {
    if events != [] {
      var d1 := Step(d, epSize, events[0]);
      SerialStepIsBridgeStep(d, epSize, events[0]);
      SerialRunIsBridgeRun(d1, epSize, events[1..]);
      var bs := ToBridgeEvents(events);
      assert bs[0] == ToBridgeEvent(events[0]);
      assert bs[1..] == ToBridgeEvents(events[1..]);
    }
  }

  /** The USB connect, disconnect and configuration-changed handlers set every LED to a status
      pattern that lights neither the TX nor the RX LED, while both pulse counters and both
      buffers are kept: such an event ends a running pulse early on the LEDs only. */
  lemma UsbEventsDarkenPulseLeds(d: Device, epSize: nat, e: Event)
    requires ValidDevice(d) && SerialBridge.ValidEpSize(epSize)
    requires e.UsbConnect? || e.UsbDisconnect? || e.UsbConfigurationChanged?
    ensures var r := Step(d, epSize, e);
      && r.bridge.txPulse == d.bridge.txPulse && r.bridge.rxPulse == d.bridge.rxPulse
      && r.bridge.toUart == d.bridge.toUart && r.bridge.toHost == d.bridge.toHost
      && Leds.Shown(r.bridge.leds) & (Leds.LEDS_TX | Leds.LEDS_RX) == 0
  {
  }
}
