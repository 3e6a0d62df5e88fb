/**
 The tap-hold engine (`TapHoldMgr`): the per-key automaton run on a tap-hold
 key's own events, the resolver run over the waiting set on the event of any
 key that is not tap-hold, and the dispatcher that chooses between them.

 The engine's only state is its waiting set; the keymap is owned by the caller
 and threaded through every step. Every step is a pure function returning the
 output and the new waiting set and keymap. The source's assertion failures
 and panics are preconditions here.
 */
module TapHold {
  import opened TapHoldTypes

  /** The result of one step of one tap-hold key's automaton. */
  datatype KeyStep<E> = KeyStep(out: TapHoldOut<E>, next: TapHoldState, waiting: set<KeyCode>)

  /** The result of one dispatched event. */
  datatype Outcome<E> = Outcome(out: TapHoldOut<E>, waiting: set<KeyCode>, keys: Keymap<E>)

  /**
   The event values the automaton accepts in each state; any other value is an
   assertion failure in the source (a press while pressed, a release while idle).
   */
  predicate Admissible(th: TapHoldState, value: KeyValue) {
    match th
    case ThIdle => value != Release
    case ThWaiting(_) => value != Press
    case ThHolding => value != Press
  }

  // --------------- Per-key automaton ----------------------

  /** A held key: its release releases the hold effect; repeats are dropped. */
  function HandleHolding<E>(waiting: set<KeyCode>, ev: KeyEvent, state: TapHoldState, tapFx: E, holdFx: E): (r: KeyStep<E>)
    requires state == ThHolding
    requires ev.value != Press
    ensures r.out.stopProcessing == STOP
    ensures r.waiting == waiting
    ensures ev.value == Release ==> r.next == ThIdle && r.out.effects == Some([TapHoldEffect(holdFx, Release)])
    ensures ev.value == Repeat ==> r.next == state && r.out.effects == None
  {
    match ev.value
    case Release => KeyStep(New(STOP, holdFx, Release), ThIdle, waiting)
    case Repeat => KeyStep(Empty(STOP), state, waiting)
  }

  /**
   An undecided key: its own release is a tap, emitted as a press and a
   release of the tap effect, whatever time has passed; repeats are dropped.
   The key is NOT taken out of the waiting set.
   */
  function HandleWaiting<E>(waiting: set<KeyCode>, ev: KeyEvent, state: TapHoldState, tapFx: E, holdFx: E): (r: KeyStep<E>)
    requires ev.value != Press
    ensures r.out.stopProcessing == STOP
    ensures r.waiting == waiting
    ensures ev.value == Release ==>
              && r.next == ThIdle
              && r.out.effects.Some?
              && r.out.Emitted() == [TapHoldEffect(tapFx, Press), TapHoldEffect(tapFx, Release)]
    ensures ev.value == Repeat ==> r.next == state && r.out.effects == None
  {
    match ev.value
    case Release =>
      var out := Insert(New(STOP, tapFx, Press), tapFx, Release);
      KeyStep(out, ThIdle, waiting)
    case Repeat => KeyStep(Empty(STOP), state, waiting)
  }

  /**
   An idle key: a press starts waiting at the event's timestamp and registers
   the key in the waiting set, emitting nothing yet; repeats are dropped.
   */
  function HandleIdle<E>(waiting: set<KeyCode>, ev: KeyEvent, state: TapHoldState, tapFx: E, holdFx: E): (r: KeyStep<E>)
    requires state == ThIdle
    requires ev.value != Release
    ensures r.out == Empty(STOP)
    ensures ev.value == Press ==> r.next == ThWaiting(ev.time) && r.waiting == waiting + {ev.code}
    ensures ev.value == Repeat ==> r.next == state && r.waiting == waiting
  {
    match ev.value
    case Press => KeyStep(Empty(STOP), ThWaiting(ev.time), waiting + {ev.code})
    case Repeat => KeyStep(Empty(STOP), state, waiting)
  }

  /**
   One step of a tap-hold key on its own event. The event is always consumed,
   a repeat never changes anything, and the waiting set can only grow, and only
   by the event's own key.
   */
  function ProcessTapHoldKey<E>(waiting: set<KeyCode>, ev: KeyEvent, state: KeyState, tapFx: E, holdFx: E): (r: KeyStep<E>)
    requires state.KsTapHold?
    requires Admissible(state.th, ev.value)
    ensures r.out.stopProcessing == STOP
    ensures ev.value == Repeat ==> r.next == state.th && r.out.effects == None && r.waiting == waiting
    ensures waiting <= r.waiting <= waiting + {ev.code}
    ensures r.next.ThWaiting? <==> (state.th.ThWaiting? && ev.value == Repeat) || (state.th.ThIdle? && ev.value == Press)
  {
    match state.th
    case ThIdle => HandleIdle(waiting, ev, state.th, tapFx, holdFx)
    case ThWaiting(_) => HandleWaiting(waiting, ev, state.th, tapFx, holdFx)
    case ThHolding => HandleHolding(waiting, ev, state.th, tapFx, holdFx)
  }

  // --------------- Waiting-set resolver ----------------------

  /** A key the resolver can settle: a tap-hold key whose state is waiting. */
  predicate Pending<E>(mk: MergedKey<E>) {
    mk.action.TapHold? && mk.state.KsTapHold? && mk.state.th.ThWaiting?
  }

  /**
   Whether the wait of a pending key is over at the event's time. Seconds and
   microseconds are subtracted separately, with no carry between them: any
   positive difference in seconds is over, and otherwise (a zero OR NEGATIVE
   difference in seconds) only a microsecond difference strictly above the
   wait period is.
   */
  function IsWaitingOver<E>(mk: MergedKey<E>, ev: KeyEvent): (over: bool)
    requires mk.state.KsTapHold? && mk.state.th.ThWaiting?
    ensures ev.time.sec > mk.state.th.timestamp.sec ==> over
    ensures ev.time.sec <= mk.state.th.timestamp.sec ==>
              (over <==> ev.time.usec > mk.state.th.timestamp.usec + TAP_HOLD_WAIT_PERIOD)
  {
    var start := mk.state.th.timestamp;
    var secsDiff := ev.time.sec - start.sec;
    var usecsDiff := ev.time.usec - start.usec;
    if secsDiff > 0 then true
    else if usecsDiff > TAP_HOLD_WAIT_PERIOD then true
    else false
  }

  /** The entry of a pending key once the resolver has decided it: held if its wait is over, idle otherwise. */
  function Settle<E>(mk: MergedKey<E>, ev: KeyEvent): MergedKey<E>
    requires Pending(mk)
  {
    mk.(state := KsTapHold(if IsWaitingOver(mk, ev) then ThHolding else ThIdle))
  }

  /** The effects the resolver emits for one pending key: a hold press, or a whole tap. */
  function Chunk<E>(mk: MergedKey<E>, ev: KeyEvent): seq<TapHoldEffect<E>>
    requires Pending(mk)
  {
    if IsWaitingOver(mk, ev) then [TapHoldEffect(mk.action.holdFx, Press)]
    else [TapHoldEffect(mk.action.tapFx, Press), TapHoldEffect(mk.action.tapFx, Release)]
  }

  predicate Distinct(order: seq<KeyCode>) {
    forall i, j | 0 <= i < j < |order| :: order[i] != order[j]
  }

  /** Every key listed is in the keymap and pending. */
  predicate AllPending<E>(keys: Keymap<E>, order: seq<KeyCode>) {
    forall i | 0 <= i < |order| :: order[i] in keys && Pending(keys[order[i]])
  }

  /** `order` lists every member of `s` exactly once: one iteration order of the set. */
  predicate Enumerates(order: seq<KeyCode>, s: set<KeyCode>) {
    && Distinct(order)
    && (forall k | k in s :: k in order)
    && (forall i | 0 <= i < |order| :: order[i] in s)
  }

  /** The effects of settling the keys of `order` one after the other, each looked up in `keys`. */
  function Chunks<E>(keys: Keymap<E>, order: seq<KeyCode>, ev: KeyEvent): seq<TapHoldEffect<E>>
    requires AllPending(keys, order)
  {
    if order == [] then [] else Chunk(keys[order[0]], ev) + Chunks(keys, order[1..], ev)
  }

  /** The keys of `s` whose wait is over: the resolver promotes these to hold. */
  function Promoted<E>(keys: Keymap<E>, s: set<KeyCode>, ev: KeyEvent): set<KeyCode> {
    set k | k in s && k in keys && Pending(keys[k]) && IsWaitingOver(keys[k], ev)
  }

  /** The keys of `s` whose wait is not over: the resolver flushes these as taps. */
  function Flushed<E>(keys: Keymap<E>, s: set<KeyCode>, ev: KeyEvent): set<KeyCode> {
    set k | k in s && k in keys && Pending(keys[k]) && !IsWaitingOver(keys[k], ev)
  }

  /** Keys that agree on every key of `order`. */
  lemma {:induction false} ChunksFrame<E>(keys: Keymap<E>, keys': Keymap<E>, order: seq<KeyCode>, ev: KeyEvent)
    requires AllPending(keys, order)
    requires forall i | 0 <= i < |order| :: order[i] in keys' && keys'[order[i]] == keys[order[i]]
    ensures AllPending(keys', order)
    ensures Chunks(keys', order, ev) == Chunks(keys, order, ev)
    decreases |order|
  {
    if order != [] {
      ChunksFrame(keys, keys', order[1..], ev);
    }
  }

  /**
   The loop body's output for one pending key: the hold press if its wait is
   over, otherwise the tap press and tap release, appended in that order.
   */
  function InsertDecision<E>(out: TapHoldOut<E>, mk: MergedKey<E>, ev: KeyEvent): (r: TapHoldOut<E>)
    requires Pending(mk)
    ensures r.stopProcessing == out.stopProcessing
    ensures r.effects.Some?
    ensures r.Emitted() == out.Emitted() + Chunk(mk, ev)
  {
    if IsWaitingOver(mk, ev) then Insert(out, mk.action.holdFx, Press)
    else Insert(Insert(out, mk.action.tapFx, Press), mk.action.tapFx, Release)
  }

  /**
   The resolver loop from the key `order[0]` on, with `out` the output so far.
   Each listed key is settled and its chunk appended; the keymap keeps its
   domain, every key not listed keeps its entry, and the output stays `None`
   only if it was and nothing was listed.
   */
  function ResolveWaiting<E>(keys: Keymap<E>, order: seq<KeyCode>, ev: KeyEvent, out: TapHoldOut<E>): (r: (TapHoldOut<E>, Keymap<E>))
    requires Distinct(order)
    requires AllPending(keys, order)
    ensures r.0.stopProcessing == out.stopProcessing
    ensures r.0.Emitted() == out.Emitted() + Chunks(keys, order, ev)
    ensures r.0.effects == None <==> out.effects == None && order == []
    ensures r.1.Keys == keys.Keys
    ensures forall k | k in keys && k !in order :: r.1[k] == keys[k]
    ensures forall k | k in order :: r.1[k] == Settle(keys[k], ev)
    decreases |order|
  {
    if order == [] then (out, keys)
    else
      var k := order[0];
      var mk := keys[k];
      var out' := InsertDecision(out, mk, ev);
      var keys' := keys[k := Settle(mk, ev)];
      var rest := order[1..];
      assert forall i | 0 <= i < |rest| :: rest[i] != k;
      ChunksFrame(keys, keys', rest, ev);
      assert Chunks(keys, order, ev) == Chunk(mk, ev) + Chunks(keys', rest, ev);
      ResolveWaiting(keys', rest, ev, out')
  }

  /** The waiting set's keys are all in the keymap and pending: what the resolver needs of them. */
  predicate ResolverReady<E>(waiting: set<KeyCode>, keys: Keymap<E>) {
    forall k | k in waiting :: k in keys && Pending(keys[k])
  }

  /**
   The resolver run on the event of a key that is not tap-hold, visiting the
   waiting set in the iteration order `order`. The event is passed on; every
   waiting key is promoted to hold (one hold press) or flushed as a tap (a
   press and a release); no other key changes; nothing is emitted exactly when
   the set is empty.
   */
  function ProcessNonTapHoldKey<E>(waiting: set<KeyCode>, keys: Keymap<E>, ev: KeyEvent, order: seq<KeyCode>): (r: (TapHoldOut<E>, Keymap<E>))
    requires ResolverReady(waiting, keys)
    requires Enumerates(order, waiting)
    ensures r.0.stopProcessing == CONTINUE
    ensures r.0.effects == None <==> waiting == {}
    ensures r.1.Keys == keys.Keys
    ensures forall k | k in keys && k !in waiting :: r.1[k] == keys[k]
    ensures forall k | k in waiting ::
              && r.1[k].action == keys[k].action
              && r.1[k].state == KsTapHold(if IsWaitingOver(keys[k], ev) then ThHolding else ThIdle)
    ensures r.0.Emitted() == Chunks(keys, order, ev)
  {
    ResolveWaiting(keys, order, ev, Empty(CONTINUE))
  }

  // --------------- Dispatcher ----------------------

  /**
   What the source demands of a dispatched event: its key is in the keymap;
   a tap-hold key has a tap-hold state that accepts the event's value; for any
   other key the waiting set is ready for the resolver and `order` is an
   iteration order of it.
   */
  predicate Dispatchable<E>(waiting: set<KeyCode>, keys: Keymap<E>, ev: KeyEvent, order: seq<KeyCode>) {
    && ev.code in keys
    && match keys[ev.code].action
       case TapHold(_, _) => keys[ev.code].state.KsTapHold? && Admissible(keys[ev.code].state.th, ev.value)
       case Simple(_) => ResolverReady(waiting, keys) && Enumerates(order, waiting)
  }

  /**
   The engine's entry point. A tap-hold key's event goes to its automaton and
   is always consumed; any other event runs the resolver and is passed on.
   The waiting set never shrinks and the keymap keeps its domain.
   */
  function ProcessTapHold<E>(waiting: set<KeyCode>, keys: Keymap<E>, ev: KeyEvent, order: seq<KeyCode>): (r: Outcome<E>)
    requires Dispatchable(waiting, keys, ev, order)
    ensures r.out.stopProcessing <==> keys[ev.code].action.TapHold?
    ensures keys[ev.code].action.Simple? && waiting == {} ==> r == Outcome(Empty(CONTINUE), waiting, keys)
    ensures waiting <= r.waiting
    ensures r.keys.Keys == keys.Keys
    ensures forall k | k in keys :: r.keys[k].action == keys[k].action
    ensures keys[ev.code].action.TapHold? ==> forall k | k in keys && k != ev.code :: r.keys[k] == keys[k]
    ensures keys[ev.code].action.Simple? ==> r.waiting == waiting
  {
    var mk := keys[ev.code];
    match mk.action
    case TapHold(tapFx, holdFx) =>
      var s := ProcessTapHoldKey(waiting, ev, mk.state, tapFx, holdFx);
      Outcome(s.out, s.waiting, keys[ev.code := mk.(state := KsTapHold(s.next))])
    case Simple(_) =>
      var r := ProcessNonTapHoldKey(waiting, keys, ev, order);
      assert waiting == {} ==> r.1 == keys;
      Outcome(r.0, waiting, r.1)
  }
}
