/**
 The data model of the tap-hold engine: key codes, key values, event
 timestamps, the per-key tap-hold automaton state, the configured action of a
 key, and the output record `TapHoldOut` that every step of the engine returns.

 Effects are opaque to the engine: they are carried through unchanged, so every
 type that holds one takes the effect type as the parameter `E`.
 */
module TapHoldTypes {

  /** A physical key code; only its identity matters here. */
  type KeyCode = nat

  datatype Option<T> = None | Some(value: T)

  /** The value field of a key event, already decoded. */
  datatype KeyValue = Release | Press | Repeat

  /** An event-source timestamp: whole seconds and microseconds, both signed. */
  datatype TimeVal = TimeVal(sec: int, usec: int)

  /** A key event, abstracted to the three fields the engine reads. */
  datatype KeyEvent = KeyEvent(code: KeyCode, value: KeyValue, time: TimeVal)

  /** The per-key automaton: idle, pressed and undecided since `timestamp`, or held. */
  datatype TapHoldState = ThIdle | ThWaiting(timestamp: TimeVal) | ThHolding

  /** The mutable state slot of a key; kinds other than tap-hold are collapsed into `KsOther`. */
  datatype KeyState = KsTapHold(th: TapHoldState) | KsOther

  /** The action configured for a key; actions other than tap-hold are collapsed into `Simple`. */
  datatype Action<E> = Simple(fx: E) | TapHold(tapFx: E, holdFx: E)

  /** The keymap entry of one key: its action and its state slot. */
  datatype MergedKey<E> = MergedKey(action: Action<E>, state: KeyState)

  /** The keymap collaborator, reduced to a lookup from key code to entry. */
  type Keymap<E> = map<KeyCode, MergedKey<E>>

  const STOP: bool := true
  const CONTINUE: bool := false

  /** The tap-hold wait period, in microseconds. */
  const TAP_HOLD_WAIT_PERIOD: int := 200000

  /** One synthetic output event: press, release or repeat of an effect. */
  datatype TapHoldEffect<E> = TapHoldEffect(fx: E, val: KeyValue)

  /**
   The result of one engine step: whether the triggering event is consumed,
   and the effects to inject, in order (`None` when there are none to inject).
   */
  datatype TapHoldOut<E> = TapHoldOut(stopProcessing: bool, effects: Option<seq<TapHoldEffect<E>>>)
  {
    /** The effects to inject as a plain list; `None` injects nothing. */
    function Emitted(): seq<TapHoldEffect<E>> {
      if effects.Some? then effects.value else []
    }
  }

  function New<E>(stopProcessing: bool, fx: E, value: KeyValue): TapHoldOut<E> {
    TapHoldOut(stopProcessing, Some([TapHoldEffect(fx, value)]))
  }

  function NewMultiple<E>(stopProcessing: bool, effects: seq<TapHoldEffect<E>>): TapHoldOut<E> {
    TapHoldOut(stopProcessing, Some(effects))
  }

  function Empty<E>(stopProcessing: bool): TapHoldOut<E> {
    TapHoldOut(stopProcessing, None)
  }

  /**
   Appends one effect. The output is never `None` afterwards, its stop flag is
   kept, and the effects already present stay in front of the new one.
   */
  function Insert<E>(out: TapHoldOut<E>, fx: E, value: KeyValue): (r: TapHoldOut<E>)
    ensures r.stopProcessing == out.stopProcessing
    ensures r.effects.Some?
    ensures r.Emitted() == out.Emitted() + [TapHoldEffect(fx, value)]
  {
    match out.effects
    case Some(effects) => out.(effects := Some(effects + [TapHoldEffect(fx, value)]))
    case None => out.(effects := Some([TapHoldEffect(fx, value)]))
  }
}
