/**
 The dispatcher with the waiting-set bookkeeping the program evidently intends: a key
 leaves the waiting set when it leaves the waiting state, on its own release
 or when the resolver settles it. Outputs and keymap are those of the source's
 dispatcher; only the waiting set differs, and it now always holds exactly the
 keys whose state is waiting, so the resolver's precondition is kept from one
 event to the next.
 */
module TapHoldFixed {
  import opened TapHoldTypes
  import opened TapHold

  /** The invariant of the waiting set: its keys are pending, and every waiting key is in it. */
  predicate Consistent<E>(waiting: set<KeyCode>, keys: Keymap<E>) {
    && ResolverReady(waiting, keys)
    && forall k | k in keys && keys[k].state.KsTapHold? && keys[k].state.th.ThWaiting? :: k in waiting
  }

  /**
   One dispatched event, removing from the waiting set a key released while
   waiting, and every key the resolver settles.
   */
  function ProcessTapHold<E>(waiting: set<KeyCode>, keys: Keymap<E>, ev: KeyEvent, order: seq<KeyCode>): (r: Outcome<E>)
    requires Consistent(waiting, keys)
    requires Dispatchable(waiting, keys, ev, order)
    ensures Consistent(r.waiting, r.keys)
    ensures forall k | k in r.keys :: k in r.waiting <==> r.keys[k].state.KsTapHold? && r.keys[k].state.th.ThWaiting?
    ensures var w := TapHold.ProcessTapHold(waiting, keys, ev, order);
            r.out == w.out && r.keys == w.keys
    ensures keys[ev.code].action.Simple? ==> r.waiting == {}
  {
    var mk := keys[ev.code];
    match mk.action
    case TapHold(tapFx, holdFx) =>
      var s := ProcessTapHoldKey(waiting, ev, mk.state, tapFx, holdFx);
      var waiting' := if mk.state.th.ThWaiting? && ev.value == Release then s.waiting - {ev.code} else s.waiting;
      Outcome(s.out, waiting', keys[ev.code := mk.(state := KsTapHold(s.next))])
    case Simple(_) =>
      var r := ProcessNonTapHoldKey(waiting, keys, ev, order);
      Outcome(r.0, {}, r.1)
  }
}
