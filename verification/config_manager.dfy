/**
 The runtime configuration (firmware/src/tasks/config_manager.rs): a copy in RAM, updated under a lock,
 and a copy in flash that catches up through an eight-slot queue.

 The twelve get/set pairs of the source differ only in the setting they name, so the setting is a parameter.
 */
module ConfigManager {
  import opened Common

  const QUEUE_DEPTH: nat := 8

  datatype Setting =
    | VscapPowerOnThreshold
    | VscapPowerOffThreshold
    | VinPowerThreshold
    | ShutdownWaitDuration
    | SoloDepletingTimeout
    | WatchdogTimeout
    | LedBrightness
    | VinCorrectionScale
    | VscapCorrectionScale
    | IinCorrectionScale
    | AutoRestart
    | HardwareVersion

  datatype Value = Float(r: real) | Number(n: nat) | Flag(b: bool)

  /** The key under which a setting is kept in flash. */
  function Key(s: Setting): U16 {
    match s
    case LedBrightness => 0x1001
    case VscapPowerOnThreshold => 0x1002
    case VscapPowerOffThreshold => 0x1003
    case VinPowerThreshold => 0x1004
    case ShutdownWaitDuration => 0x1005
    case WatchdogTimeout => 0x1006
    case SoloDepletingTimeout => 0x1007
    case VinCorrectionScale => 0x1008
    case IinCorrectionScale => 0x1009
    case VscapCorrectionScale => 0x100a
    case AutoRestart => 0x100b
    case HardwareVersion => 0x100c
  }

  function Default(s: Setting): Value {
    match s
    case LedBrightness => Number(0x30)
    case VscapPowerOnThreshold => Float(8.0)
    case VscapPowerOffThreshold => Float(5.5)
    case VinPowerThreshold => Float(9.0)
    case ShutdownWaitDuration => Number(60_000)
    case WatchdogTimeout => Number(10_000)
    case SoloDepletingTimeout => Number(5_000)
    case VinCorrectionScale => Float(1.015)
    case IinCorrectionScale => Float(0.8115331)
    case VscapCorrectionScale => Float(1.059)
    case AutoRestart => Flag(true)
    case HardwareVersion => Number(0xffff)
  }

  predicate CorrectionScale(s: Setting) {
    s.VinCorrectionScale? || s.VscapCorrectionScale? || s.IinCorrectionScale?
  }

  /** The in-RAM copy. */
  datatype RuntimeConfig = RuntimeConfig(
    vscapPowerOnThreshold: Value,
    vscapPowerOffThreshold: Value,
    vinPowerThreshold: Value,
    shutdownWaitDuration: Value,
    soloDepletingTimeout: Value,
    watchdogTimeout: Value,
    ledBrightness: Value,
    vinCorrectionScale: Value,
    vscapCorrectionScale: Value,
    iinCorrectionScale: Value,
    autoRestart: Value,
    hardwareVersion: Value)

  function Get(c: RuntimeConfig, s: Setting): Value {
    match s
    case VscapPowerOnThreshold => c.vscapPowerOnThreshold
    case VscapPowerOffThreshold => c.vscapPowerOffThreshold
    case VinPowerThreshold => c.vinPowerThreshold
    case ShutdownWaitDuration => c.shutdownWaitDuration
    case SoloDepletingTimeout => c.soloDepletingTimeout
    case WatchdogTimeout => c.watchdogTimeout
    case LedBrightness => c.ledBrightness
    case VinCorrectionScale => c.vinCorrectionScale
    case VscapCorrectionScale => c.vscapCorrectionScale
    case IinCorrectionScale => c.iinCorrectionScale
    case AutoRestart => c.autoRestart
    case HardwareVersion => c.hardwareVersion
  }

  function Put(c: RuntimeConfig, s: Setting, v: Value): RuntimeConfig {
    match s
    case VscapPowerOnThreshold => c.(vscapPowerOnThreshold := v)
    case VscapPowerOffThreshold => c.(vscapPowerOffThreshold := v)
    case VinPowerThreshold => c.(vinPowerThreshold := v)
    case ShutdownWaitDuration => c.(shutdownWaitDuration := v)
    case SoloDepletingTimeout => c.(soloDepletingTimeout := v)
    case WatchdogTimeout => c.(watchdogTimeout := v)
    case LedBrightness => c.(ledBrightness := v)
    case VinCorrectionScale => c.(vinCorrectionScale := v)
    case VscapCorrectionScale => c.(vscapCorrectionScale := v)
    case IinCorrectionScale => c.(iinCorrectionScale := v)
    case AutoRestart => c.(autoRestart := v)
    case HardwareVersion => c.(hardwareVersion := v)
  }

  const DEFAULTS: RuntimeConfig := RuntimeConfig(
    Default(VscapPowerOnThreshold),
    Default(VscapPowerOffThreshold),
    Default(VinPowerThreshold),
    Default(ShutdownWaitDuration),
    Default(SoloDepletingTimeout),
    Default(WatchdogTimeout),
    Default(LedBrightness),
    Default(VinCorrectionScale),
    Default(VscapCorrectionScale),
    Default(IinCorrectionScale),
    Default(AutoRestart),
    Default(HardwareVersion))

  type Flash = map<U16, Value>

  datatype Event =
    | Store(setting: Setting, value: Value)
    | UsbPortState(bits: Byte)
    | UsbPowerOn
    | UsbPowerOff

  /** What is fetched for a setting: the default stands in for a missing item and for a failed fetch. */
  function Fetch(flash: Flash, s: Setting, faults: set<U16>): Value {
    if Key(s) in flash && Key(s) !in faults then flash[Key(s)] else Default(s)
  }

  function Stored(flash: Flash, s: Setting): Value {
    Fetch(flash, s, {})
  }

  // ---------------------------------------------------------------- the system

  /**
   `setter` is the event of the task that holds the RUNTIME_CONFIG lock while it waits to send;
   `taken` is the event the manager task has received and not yet stored; `panicked` is set when a store
   fails, whose result the manager unwraps.
   */
  datatype System = System(
    runtime: RuntimeConfig,
    setter: Option<Event>,
    queue: seq<Event>,
    taken: Option<Event>,
    flash: Flash,
    panicked: bool)

  /** A failed store leaves its key missing or with any value. */
  datatype StoreResult = StoreOk | StoreFails(left: Option<Value>)

  datatype Action =
    | BeginSet(setting: Setting, value: Value)
    | FinishSet
    | SendUsb(event: Event)
    | Take
    | Finish(testMode: bool, result: StoreResult)

  predicate Enabled(y: System, a: Action) {
    && !y.panicked
    && match a
       case BeginSet(_, _) => y.setter.None?
       case FinishSet => y.setter.Some? && |y.queue| < QUEUE_DEPTH
       case SendUsb(event) => !event.Store? && |y.queue| < QUEUE_DEPTH
       case Take => y.taken.None? && y.queue != []
       case Finish(_, _) => y.taken.Some?
  }

  /** The hardware version reaches the flash only in test mode; USB events touch no setting. */
  predicate NeedsStore(e: Event, testMode: bool) {
    e.Store? && (!e.setting.HardwareVersion? || testMode)
  }

  function Persist(flash: Flash, e: Event, testMode: bool): Flash {
    if NeedsStore(e, testMode) then flash[Key(e.setting) := e.value] else flash
  }

  function LeftBehind(flash: Flash, key: U16, left: Option<Value>): Flash {
    if left.Some? then flash[key := left.value] else flash - {key}
  }

  function Next(y: System, a: Action): System
    requires Enabled(y, a)
  {
    match a
    case BeginSet(s, v) => y.(runtime := Put(y.runtime, s, v), setter := Some(Store(s, v)))
    case FinishSet => y.(queue := y.queue + [y.setter.value], setter := None)
    case SendUsb(event) => y.(queue := y.queue + [event])
    case Take => y.(taken := Some(y.queue[0]), queue := y.queue[1..])
    case Finish(testMode, result) =>
      var event := y.taken.value;
      if NeedsStore(event, testMode) && result.StoreFails? then
        y.(flash := LeftBehind(y.flash, Key(event.setting), result.left), panicked := true)
      else
        y.(flash := Persist(y.flash, event, testMode), taken := None)
  }

  function Exec(y: System, actions: seq<Action>): Option<System> {
    if actions == [] then Some(y)
    else
      var n := |actions| - 1;
      var before := Exec(y, actions[..n]);
      if before.Some? && Enabled(before.value, actions[n]) then Some(Next(before.value, actions[n])) else None
  }

  /** Init loads nine settings from flash; the correction scales keep what they had. */
  function InitRuntime(runtime: RuntimeConfig, flash: Flash, faults: set<U16>): RuntimeConfig {
    runtime.(
      vscapPowerOnThreshold := Fetch(flash, VscapPowerOnThreshold, faults),
      vscapPowerOffThreshold := Fetch(flash, VscapPowerOffThreshold, faults),
      vinPowerThreshold := Fetch(flash, VinPowerThreshold, faults),
      shutdownWaitDuration := Fetch(flash, ShutdownWaitDuration, faults),
      soloDepletingTimeout := Fetch(flash, SoloDepletingTimeout, faults),
      watchdogTimeout := Fetch(flash, WatchdogTimeout, faults),
      ledBrightness := Fetch(flash, LedBrightness, faults),
      autoRestart := Fetch(flash, AutoRestart, faults),
      hardwareVersion := Fetch(flash, HardwareVersion, faults))
  }

  function Init(y: System, faults: set<U16>): System {
    y.(runtime := InitRuntime(y.runtime, y.flash, faults))
  }

  /** RAM is lost, flash is kept. */
  function Reboot(y: System): System {
    System(DEFAULTS, None, [], None, y.flash, false)
  }

  datatype SetResult = Sent | WaitingForRoom | WaitingForLock

  class ConfigManagerTask {
    var runtime: RuntimeConfig
    var setter: Option<Event>
    var queue: seq<Event>
    var taken: Option<Event>
    var flash: Flash
    var panicked: bool

    /** The manager keeps an event past its turn only by panicking over it. */
    ghost predicate Valid()
      reads this
    {
      taken.Some? <==> panicked
    }

    ghost function Snapshot(): System
      reads this
    {
      System(runtime, setter, queue, taken, flash, panicked)
    }

    constructor (stored: Flash)
      ensures Valid() && Snapshot() == System(DEFAULTS, None, [], None, stored, false)
    {
      runtime, setter, queue, taken, flash, panicked := DEFAULTS, None, [], None, stored, false;
    }

    method InitConfigManager(faults: set<U16>)
      modifies this`runtime
      ensures Snapshot() == Init(old(Snapshot()), faults)
    {
      runtime := runtime.(vscapPowerOnThreshold := Fetch(flash, VscapPowerOnThreshold, faults));
      runtime := runtime.(vscapPowerOffThreshold := Fetch(flash, VscapPowerOffThreshold, faults));
      runtime := runtime.(vinPowerThreshold := Fetch(flash, VinPowerThreshold, faults));
      runtime := runtime.(shutdownWaitDuration := Fetch(flash, ShutdownWaitDuration, faults));
      runtime := runtime.(soloDepletingTimeout := Fetch(flash, SoloDepletingTimeout, faults));
      runtime := runtime.(watchdogTimeout := Fetch(flash, WatchdogTimeout, faults));
      runtime := runtime.(ledBrightness := Fetch(flash, LedBrightness, faults));
      runtime := runtime.(autoRestart := Fetch(flash, AutoRestart, faults));
      runtime := runtime.(hardwareVersion := Fetch(flash, HardwareVersion, faults));
    }

    /** A setter runs up to its first wait: for the lock, for room in the queue, or not at all. */
    method Set(s: Setting, v: Value) returns (r: SetResult)
      requires Valid() && !panicked
      modifies this
      ensures Valid()
      ensures r.WaitingForLock? <==> !Enabled(old(Snapshot()), BeginSet(s, v))
      ensures r.WaitingForLock? ==> Snapshot() == old(Snapshot())
      ensures !r.WaitingForLock? ==>
                var begun := Next(old(Snapshot()), BeginSet(s, v));
                && (r.Sent? <==> Enabled(begun, FinishSet))
                && Snapshot() == if r.Sent? then Next(begun, FinishSet) else begun
    {
      if setter.Some? {
        return WaitingForLock;
      }
      runtime := Put(runtime, s, v);
      setter := Some(Store(s, v));
      var sent := ResumeSet();
      return if sent then Sent else WaitingForRoom;
    }

    /** The lock holder, if any, sends its event once there is room, and releases the lock. */
    method ResumeSet() returns (sent: bool)
      requires Valid() && !panicked
      modifies this
      ensures Valid()
      ensures sent <==> Enabled(old(Snapshot()), FinishSet)
      ensures Snapshot() == if sent then Next(old(Snapshot()), FinishSet) else old(Snapshot())
    {
      sent := setter.Some? && |queue| < QUEUE_DEPTH;
      if sent {
        queue, setter := queue + [setter.value], None;
      }
    }

    /** One turn of the manager's loop, which waits as long as there is no event; a failing store panics. */
    method HandleEvent(testMode: bool, result: StoreResult) returns (received: bool)
      requires Valid() && !panicked
      modifies this
      ensures Valid()
      ensures received <==> Enabled(old(Snapshot()), Take)
      ensures Snapshot() == if received then Next(Next(old(Snapshot()), Take), Finish(testMode, result))
                            else old(Snapshot())
    {
      received := queue != [];
      if !received {
        return;
      }
      var event := queue[0];
      taken, queue := Some(event), queue[1..];
      match event {
        case Store(s, v) =>
          if s == HardwareVersion {
            if testMode {
              StoreSetting(s, v, result);
            }
          } else {
            StoreSetting(s, v, result);
          }
        case _ =>
      }
      if !panicked {
        taken := None;
      }
    }

    method StoreSetting(s: Setting, v: Value, result: StoreResult)
      modifies this`flash, this`panicked
      ensures flash == match result
                       case StoreOk => old(flash)[Key(s) := v]
                       case StoreFails(left) => LeftBehind(old(flash), Key(s), left)
      ensures panicked <==> old(panicked) || result.StoreFails?
    {
      match result {
        case StoreOk =>
          flash := flash[Key(s) := v];
        case StoreFails(left) =>
          flash := LeftBehind(flash, Key(s), left);
          panicked := true;
      }
    }
  }

  // ---------------------------------------------------------------- coherence

  lemma {:induction false} PutThenGet(c: RuntimeConfig, s: Setting, v: Value, t: Setting)
    ensures Get(Put(c, s, v), t) == if s == t then v else Get(c, t)
  {
  }

  lemma {:induction false} KeysAreDistinct(s: Setting, t: Setting)
    ensures Key(s) == Key(t) <==> s == t
  {
  }

  /** The last value queued for a setting. */
  function LastWrite(events: seq<Event>, s: Setting): Option<Value> {
    if events == [] then None
    else
      var last := events[|events| - 1];
      if last.Store? && last.setting == s then Some(last.value) else LastWrite(events[..|events| - 1], s)
  }

  /** The value a setting will have in flash once `events` have been stored. */
  function Replay(flash: Flash, events: seq<Event>, s: Setting): Value {
    var write := LastWrite(events, s);
    if write.Some? then write.value else Stored(flash, s)
  }

  /** Everything on its way to the flash, oldest first. */
  function OnTheWay(y: System): seq<Event> {
    (if y.taken.Some? then [y.taken.value] else []) + y.queue + (if y.setter.Some? then [y.setter.value] else [])
  }

  /** RAM agrees with the flash plus everything on its way there. */
  predicate Coherent(y: System, s: Setting) {
    Get(y.runtime, s) == Replay(y.flash, OnTheWay(y), s)
  }

  predicate Persisted(s: Setting, testMode: bool) {
    !s.HardwareVersion? || testMode
  }

  lemma {:induction false} OneMoreWrite(events: seq<Event>, e: Event, s: Setting)
    ensures LastWrite(events + [e], s) == if e.Store? && e.setting == s then Some(e.value) else LastWrite(events, s)
  {
    assert (events + [e])[..|events|] == events;
  }

  lemma {:induction false} PersistOne(flash: Flash, e: Event, testMode: bool, s: Setting)
    requires Persisted(s, testMode)
    ensures Stored(Persist(flash, e, testMode), s) ==
            if e.Store? && e.setting == s then e.value else Stored(flash, s)
  {
    if e.Store? {
      KeysAreDistinct(s, e.setting);
    }
    hide Key, Default;
  }

  lemma {:induction false} OldestWrite(e: Event, rest: seq<Event>, s: Setting)
    ensures LastWrite([e] + rest, s) ==
            if LastWrite(rest, s).None? && e.Store? && e.setting == s then Some(e.value) else LastWrite(rest, s)
    decreases |rest|
  {
    if rest == [] {
      assert [e] + rest == [] + [e];
      OneMoreWrite([], e, s);
    } else {
      var n := |rest| - 1;
      OldestWrite(e, rest[..n], s);
      assert [e] + rest == ([e] + rest[..n]) + [rest[n]];
      OneMoreWrite([e] + rest[..n], rest[n], s);
    }
  }

  /** Storing the oldest event does not change what the flash will hold in the end. */
  lemma {:induction false} StoreOldest(flash: Flash, e: Event, rest: seq<Event>, testMode: bool, s: Setting)
    requires Persisted(s, testMode)
    ensures Replay(Persist(flash, e, testMode), rest, s) == Replay(flash, [e] + rest, s)
  {
    PersistOne(flash, e, testMode, s);
    OldestWrite(e, rest, s);
    hide Persist, Stored, LastWrite;
  }

  /** Nor does a failing store: its event stays on the way, and the other keys keep their values. */
  lemma {:induction false} FailedStore(flash: Flash, e: Event, rest: seq<Event>, left: Option<Value>, s: Setting)
    requires e.Store?
    ensures Replay(LeftBehind(flash, Key(e.setting), left), [e] + rest, s) == Replay(flash, [e] + rest, s)
  {
    OldestWrite(e, rest, s);
    KeysAreDistinct(s, e.setting);
    hide Key, Default, LastWrite;
  }

  lemma {:induction false} NextKeepsCoherence(y: System, a: Action, s: Setting)
    requires Coherent(y, s) && Enabled(y, a)
    requires a.Finish? ==> Persisted(s, a.testMode)
    ensures Coherent(Next(y, a), s)
  {
    var y' := Next(y, a);
    match a {
      case BeginSet(t, v) =>
        PutThenGet(y.runtime, t, v, s);
        assert OnTheWay(y') == OnTheWay(y) + [Store(t, v)];
        OneMoreWrite(OnTheWay(y), Store(t, v), s);
      case FinishSet =>
        assert OnTheWay(y') == OnTheWay(y);
      case SendUsb(event) =>
        UsbDoesNotMatter(y, event, s);
      case Take =>
        assert OnTheWay(y') == OnTheWay(y);
      case Finish(testMode, result) =>
        var rest := y.queue + (if y.setter.Some? then [y.setter.value] else []);
        assert OnTheWay(y) == [y.taken.value] + rest;
        if y'.panicked {
          FailedStore(y.flash, y.taken.value, rest, result.left, s);
        } else {
          assert OnTheWay(y') == rest;
          StoreOldest(y.flash, y.taken.value, rest, testMode, s);
        }
    }
  }

  /** A USB event may overtake a waiting setter in the queue. */
  lemma {:induction false} UsbDoesNotMatter(y: System, event: Event, s: Setting)
    requires !event.Store?
    ensures LastWrite(OnTheWay(y.(queue := y.queue + [event])), s) == LastWrite(OnTheWay(y), s)
  {
    hide LastWrite;
    var sent := (if y.taken.Some? then [y.taken.value] else []) + y.queue;
    var y' := y.(queue := y.queue + [event]);
    OneMoreWrite(sent, event, s);
    if y.setter.Some? {
      assert OnTheWay(y') == (sent + [event]) + [y.setter.value];
      assert OnTheWay(y) == sent + [y.setter.value];
      OneMoreWrite(sent + [event], y.setter.value, s);
      OneMoreWrite(sent, y.setter.value, s);
    } else {
      assert OnTheWay(y') == sent + [event];
      assert OnTheWay(y) == sent;
    }
  }

  /** The manager never drops an event of setting `s`: for the hardware version, it always runs in test mode. */
  predicate AlwaysPersisted(s: Setting, actions: seq<Action>) {
    forall i :: 0 <= i < |actions| && actions[i].Finish? ==> Persisted(s, actions[i].testMode)
  }

  /** Coherence holds at every point of every interleaving, whether or not a store fails. */
  lemma {:induction false} CacheStaysCoherent(y: System, actions: seq<Action>, s: Setting)
    requires Coherent(y, s)
    requires Exec(y, actions).Some?
    requires AlwaysPersisted(s, actions)
    ensures Coherent(Exec(y, actions).value, s)
  {
    hide Coherent, Next, Enabled;
    if actions != [] {
      var n := |actions| - 1;
      CacheStaysCoherent(y, actions[..n], s);
      NextKeepsCoherence(Exec(y, actions[..n]).value, actions[n], s);
    }
  }

  /** The events put into the queue, in order. */
  function Submitted(y: System, actions: seq<Action>): seq<Event>
    requires Exec(y, actions).Some?
  {
    if actions == [] then []
    else
      var n := |actions| - 1;
      Submitted(y, actions[..n]) +
      match actions[n]
      case FinishSet => [Exec(y, actions[..n]).value.setter.value]
      case SendUsb(event) => [event]
      case _ => []
  }

  /** The events the manager has taken out of it, in order. */
  function Received(y: System, actions: seq<Action>): seq<Event>
    requires Exec(y, actions).Some?
  {
    if actions == [] then []
    else
      var n := |actions| - 1;
      Received(y, actions[..n]) + (if actions[n].Take? then [Exec(y, actions).value.taken.value] else [])
  }

  /** No event is lost, repeated or overtaken in the queue, USB requests included, and it holds at most eight. */
  lemma {:induction false} EventsArriveInOrder(y: System, actions: seq<Action>)
    requires y.queue == []
    requires Exec(y, actions).Some?
    ensures Received(y, actions) + Exec(y, actions).value.queue == Submitted(y, actions)
    ensures |Exec(y, actions).value.queue| <= QUEUE_DEPTH
  {
    hide Persist, LeftBehind, Put, NeedsStore;
    if actions != [] {
      var n := |actions| - 1;
      EventsArriveInOrder(y, actions[..n]);
      var before := Exec(y, actions[..n]).value;
      if actions[n].Take? {
        assert before.queue == [before.queue[0]] + before.queue[1..];
      }
    }
  }

  /** The last value of `s` that the manager has stored, none if it has stored none. */
  function LastStored(y: System, actions: seq<Action>, s: Setting): Option<Value>
    requires Exec(y, actions).Some?
  {
    if actions == [] then None
    else
      var n := |actions| - 1;
      var before, a := Exec(y, actions[..n]).value, actions[n];
      if a.Finish? && a.result.StoreOk? && Persisted(s, a.testMode)
         && before.taken.value.Store? && before.taken.value.setting == s
      then Some(before.taken.value.value)
      else LastStored(y, actions[..n], s)
  }

  /** One action changes what the flash holds for `s` only by finishing a store of it that is not withheld. */
  lemma {:induction false} WhoWritesFlash(y: System, a: Action, s: Setting)
    requires Enabled(y, a) && !Next(y, a).panicked
    ensures var stored := a.Finish? && Persisted(s, a.testMode)
                          && y.taken.value.Store? && y.taken.value.setting == s;
            && (stored ==> a.result.StoreOk? && Key(s) in Next(y, a).flash
                           && Next(y, a).flash[Key(s)] == y.taken.value.value)
            && (!stored ==> (Key(s) in Next(y, a).flash <==> Key(s) in y.flash)
                            && Stored(Next(y, a).flash, s) == Stored(y.flash, s))
  {
    if a.Finish? && y.taken.value.Store? {
      KeysAreDistinct(s, y.taken.value.setting);
    }
    hide Key, Default, Put;
  }

  lemma {:induction false} PanicIsFinal(y: System, a: Action)
    requires Enabled(y, a)
    ensures !y.panicked
  {
  }

  /**
   Every setting, the hardware version included: while no store has failed, the flash holds the last value the manager
   was to store, or what it held before. For the hardware version only turns in test mode count.
   */
  lemma {:induction false} FlashHoldsLastStored(y: System, actions: seq<Action>, s: Setting)
    requires Exec(y, actions).Some? && !Exec(y, actions).value.panicked
    ensures var flash, last := Exec(y, actions).value.flash, LastStored(y, actions, s);
            && (Key(s) in flash <==> last.Some? || Key(s) in y.flash)
            && Stored(flash, s) == (if last.Some? then last.value else Stored(y.flash, s))
  {
    hide Next, Enabled, Key, Persisted;
    if actions != [] {
      var n := |actions| - 1;
      var before := Exec(y, actions[..n]).value;
      PanicIsFinal(before, actions[n]);
      FlashHoldsLastStored(y, actions[..n], s);
      WhoWritesFlash(before, actions[n], s);
    }
  }

  /** The manager never runs in test mode. */
  predicate NeverTestMode(actions: seq<Action>) {
    forall i :: 0 <= i < |actions| && actions[i].Finish? ==> !actions[i].testMode
  }

  /** Outside test mode the hardware version in flash never changes, whatever is set and whichever store fails. */
  lemma {:induction false} HardwareVersionIsLocked(y: System, actions: seq<Action>)
    requires Exec(y, actions).Some? && NeverTestMode(actions)
    ensures var flash, key := Exec(y, actions).value.flash, Key(HardwareVersion);
            && (key in flash <==> key in y.flash)
            && (key in flash ==> flash[key] == y.flash[key])
  {
    hide Next, Enabled, Key;
    if actions != [] {
      var n := |actions| - 1;
      HardwareVersionIsLocked(y, actions[..n]);
      LockedStep(Exec(y, actions[..n]).value, actions[n]);
    }
  }

  lemma {:induction false} LockedStep(y: System, a: Action)
    requires Enabled(y, a) && (a.Finish? ==> !a.testMode)
    ensures var flash, key := Next(y, a).flash, Key(HardwareVersion);
            && (key in flash <==> key in y.flash)
            && (key in flash ==> flash[key] == y.flash[key])
  {
    if a.Finish? && y.taken.value.Store? {
      KeysAreDistinct(HardwareVersion, y.taken.value.setting);
    }
    hide Key, Put;
  }

  /**
   Reboot and initialization bring back the last hardware version the manager finished in test mode, or the one stored
   before; so one that was set survives exactly if it is that value.
   */
  lemma {:induction false} RebootRestoresHardwareVersion(y: System, actions: seq<Action>)
    requires Exec(y, actions).Some? && !Exec(y, actions).value.panicked
    ensures var r, last := Exec(y, actions).value, LastStored(y, actions, HardwareVersion);
            var rebooted := Get(Init(Reboot(r), {}).runtime, HardwareVersion);
            && rebooted == (if last.Some? then last.value else Stored(y.flash, HardwareVersion))
            && (NeverTestMode(actions) ==> rebooted == Stored(y.flash, HardwareVersion))
  {
    FlashHoldsLastStored(y, actions, HardwareVersion);
    if NeverTestMode(actions) {
      HardwareVersionIsLocked(y, actions);
    }
    hide Exec, LastStored;
  }

  /** After the panic of a failed store, a reboot reads what the store left of its own setting; others are unchanged. */
  lemma {:induction false} RebootAfterPanic(y: System, a: Action, s: Setting)
    requires Enabled(y, a) && Next(y, a).panicked
    requires !CorrectionScale(s)
    ensures a.Finish? && a.result.StoreFails? && y.taken.value.Store?
    ensures Get(Init(Reboot(Next(y, a)), {}).runtime, s) ==
            if s != y.taken.value.setting then Stored(y.flash, s)
            else if a.result.left.Some? then a.result.left.value
            else Default(s)
  {
    KeysAreDistinct(s, y.taken.value.setting);
    hide Key, Default, Put;
  }

  predicate Drained(y: System) {
    y.setter.None? && y.queue == [] && y.taken.None?
  }

  /** Drain, reboot, initialize: every setting that is loaded, and was persisted, has the value it had. */
  lemma {:induction false} RebootRestoresSettings(y: System, actions: seq<Action>, s: Setting)
    requires Coherent(y, s)
    requires Exec(y, actions).Some? && Drained(Exec(y, actions).value)
    requires AlwaysPersisted(s, actions)
    requires !CorrectionScale(s)
    ensures var r := Exec(y, actions).value;
            Get(Init(Reboot(r), {}).runtime, s) == Get(r.runtime, s)
  {
    CacheStaysCoherent(y, actions, s);
    var r := Exec(y, actions).value;
    hide Exec;
    assert OnTheWay(r) == [];
    assert Get(r.runtime, s) == Stored(r.flash, s);
  }

  /**
   A reboot at any moment, be it a power failure or the panic after a failed store: a loaded setting keeps its value
   exactly if no write of it is on its way, or the last one on its way is what the flash already holds.
   */
  lemma {:induction false} RebootAtAnyMoment(y: System, actions: seq<Action>, s: Setting)
    requires Coherent(y, s)
    requires Exec(y, actions).Some?
    requires AlwaysPersisted(s, actions)
    requires !CorrectionScale(s)
    ensures var r := Exec(y, actions).value;
            var last := LastWrite(OnTheWay(r), s);
            Get(Init(Reboot(r), {}).runtime, s) == Get(r.runtime, s) <==>
            last.None? || last.value == Stored(r.flash, s)
  {
    CacheStaysCoherent(y, actions, s);
    hide Exec, OnTheWay, LastWrite;
  }

  /** Whatever state it was in, a rebooted system runs, with nothing on its way and every loaded setting coherent. */
  lemma {:induction false} RebootRecovers(y: System, s: Setting, v: Value)
    ensures var r := Init(Reboot(y), {});
            && Drained(r) && r.flash == y.flash
            && Enabled(r, BeginSet(s, v))
            && (!CorrectionScale(s) ==> Coherent(r, s))
  {
    assert OnTheWay(Init(Reboot(y), {})) == [];
  }

  /** The correction scales are stored but never loaded: a reboot restores one exactly if it was at its default. */
  lemma {:induction false} RebootForgetsScales(y: System, s: Setting, faults: set<U16>)
    requires CorrectionScale(s)
    ensures Get(Init(Reboot(y), faults).runtime, s) == Get(y.runtime, s) <==> Get(y.runtime, s) == Default(s)
  {
  }

  /**
   Initialization makes a setting coherent exactly if no write of it is queued that differs from
   what is stored; a queue without setting events is the usual case.
   */
  lemma {:induction false} InitMakesCoherent(y: System, s: Setting)
    requires y.setter.None? && y.taken.None?
    requires !CorrectionScale(s)
    ensures Coherent(Init(y, {}), s) <==>
            LastWrite(y.queue, s).None? || LastWrite(y.queue, s).value == Stored(y.flash, s)
  {
    assert OnTheWay(Init(y, {})) == y.queue;
  }

  lemma {:induction false} TwoActions(y: System, a: Action, b: Action)
    requires Enabled(y, a) && Enabled(Next(y, a), b)
    ensures Exec(y, [a, b]) == Some(Next(Next(y, a), b))
  {
    hide Next, Enabled;
    assert [a, b][..1] == [a] && [a][..0] == [];
    assert Exec(y, []) == Some(y);
    assert Exec(y, [a]) == Some(Next(y, a));
  }

  /** A setter that runs before initialization is overwritten in RAM but wins in flash: the two end up different. */
  lemma {:induction false} SetBeforeInitIsLost(flash: Flash, v: Value)
    requires v != Stored(flash, LedBrightness)
    ensures var y := System(DEFAULTS, None, [], None, flash, false);
            var early := Exec(y, [BeginSet(LedBrightness, v), FinishSet]);
            && early.Some?
            && var late := Exec(Init(early.value, {}), [Take, Finish(false, StoreOk)]);
               && late.Some? && Drained(late.value)
               && Get(late.value.runtime, LedBrightness) != Stored(late.value.flash, LedBrightness) == v
  {
    var y := System(DEFAULTS, None, [], None, flash, false);
    TwoActions(y, BeginSet(LedBrightness, v), FinishSet);
    var early := Exec(y, [BeginSet(LedBrightness, v), FinishSet]).value;
    TwoActions(Init(early, {}), Take, Finish(false, StoreOk));
  }
}
