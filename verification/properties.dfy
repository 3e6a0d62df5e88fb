/**
 Properties of the tap-hold engine that relate several steps, several keys or
 several iteration orders of the waiting set.
 */
module TapHoldProperties {
  import opened TapHoldTypes
  import opened TapHold

  // --------------- Balance of synthetic presses and releases ----------------------

  /** +1 for a press, -1 for a release, 0 for a repeat. */
  function Delta(v: KeyValue): int {
    match v
    case Press => 1
    case Release => -1
    case Repeat => 0
  }

  /** Presses minus releases of the effect `fx` in a list of emitted effects. */
  ghost function Net<E>(es: seq<TapHoldEffect<E>>, fx: E): int {
    if es == [] then 0
    else (if es[0].fx == fx then Delta(es[0].val) else 0) + Net(es[1..], fx)
  }

  /** The number of hold presses a key in this state has left outstanding. */
  function Held(th: TapHoldState): int {
    if th.ThHolding? then 1 else 0
  }

  lemma {:induction false} NetAppend<E>(a: seq<TapHoldEffect<E>>, b: seq<TapHoldEffect<E>>, fx: E)
    ensures Net(a + b, fx) == Net(a, fx) + Net(b, fx)
    decreases |a|
  {
    if a == [] {
      assert a + b == b;
    } else {
      assert (a + b)[1..] == a[1..] + b;
      NetAppend(a[1..], b, fx);
    }
  }

  lemma NetPair<E>(x: TapHoldEffect<E>, y: TapHoldEffect<E>, fx: E)
    ensures Net([x, y], fx) == Net([x], fx) + Net([y], fx)
  {
    NetAppend([x], [y], fx);
    assert [x] + [y] == [x, y];
  }

  /**
   A tap-hold key's own step never emits an unmatched press or release: for
   every effect, presses minus releases equal the change in outstanding hold
   presses, which is only nonzero for the hold effect (+1 never here, -1 when
   a held key is released).
   */
  lemma KeyStepBalance<E>(waiting: set<KeyCode>, ev: KeyEvent, state: KeyState, tapFx: E, holdFx: E, fx: E)
    requires state.KsTapHold?
    requires Admissible(state.th, ev.value)
    ensures var r := ProcessTapHoldKey(waiting, ev, state, tapFx, holdFx);
            Net(r.out.Emitted(), fx) == if fx == holdFx then Held(r.next) - Held(state.th) else 0
  {
    var r := ProcessTapHoldKey(waiting, ev, state, tapFx, holdFx);
    if state.th.ThWaiting? && ev.value == Release {
      NetPair(TapHoldEffect(tapFx, Press), TapHoldEffect(tapFx, Release), fx);
    }
  }

  /** The keys of `s` the resolver promotes whose hold effect is `fx`. */
  ghost function PromotedTo<E>(keys: Keymap<E>, s: set<KeyCode>, ev: KeyEvent, fx: E): set<KeyCode> {
    set k | k in s && k in keys && Pending(keys[k]) && IsWaitingOver(keys[k], ev) && keys[k].action.holdFx == fx
  }

  /** The members of a sequence, as a set. */
  function Members(order: seq<KeyCode>): set<KeyCode> {
    set k | k in order
  }

  lemma MembersCons(order: seq<KeyCode>)
    requires order != []
    requires Distinct(order)
    ensures Members(order) == {order[0]} + Members(order[1..])
    ensures order[0] !in Members(order[1..])
  {
    assert forall k :: k in order <==> k == order[0] || k in order[1..];
  }

  /** A distinct order has as many entries as members. */
  lemma {:induction false} DistinctCard(order: seq<KeyCode>)
    requires Distinct(order)
    ensures |Members(order)| == |order|
    decreases |order|
  {
    if order == [] {
      assert Members(order) == {};
    } else {
      MembersCons(order);
      DistinctCard(order[1..]);
    }
  }

  lemma {:induction false} ChunksBalance<E>(keys: Keymap<E>, order: seq<KeyCode>, ev: KeyEvent, fx: E)
    requires Distinct(order)
    requires AllPending(keys, order)
    ensures Net(Chunks(keys, order, ev), fx) == |PromotedTo(keys, Members(order), ev, fx)|
    decreases |order|
  {
    if order == [] {
      assert PromotedTo(keys, Members(order), ev, fx) == {};
    } else {
      var x, tl := order[0], order[1..];
      var mk := keys[x];
      ChunksBalance(keys, tl, ev, fx);
      MembersCons(order);
      NetAppend(Chunk(mk, ev), Chunks(keys, tl, ev), fx);
      if IsWaitingOver(mk, ev) {
        if mk.action.holdFx == fx {
          assert PromotedTo(keys, Members(order), ev, fx) == {x} + PromotedTo(keys, Members(tl), ev, fx);
        } else {
          assert PromotedTo(keys, Members(order), ev, fx) == PromotedTo(keys, Members(tl), ev, fx);
        }
      } else {
        NetPair(TapHoldEffect(mk.action.tapFx, Press), TapHoldEffect(mk.action.tapFx, Release), fx);
        assert PromotedTo(keys, Members(order), ev, fx) == PromotedTo(keys, Members(tl), ev, fx);
      }
    }
  }

  /**
   The resolver leaves exactly one hold press outstanding per promoted key and
   balances every tap it flushes: for each effect, presses minus releases equal
   the number of promoted keys whose hold effect it is.
   */
  lemma ResolverBalance<E>(waiting: set<KeyCode>, keys: Keymap<E>, ev: KeyEvent, order: seq<KeyCode>, fx: E)
    requires ResolverReady(waiting, keys)
    requires Enumerates(order, waiting)
    ensures Net(ProcessNonTapHoldKey(waiting, keys, ev, order).0.Emitted(), fx) == |PromotedTo(keys, waiting, ev, fx)|
  {
    ChunksBalance(keys, order, ev, fx);
    assert Members(order) == waiting;
  }

  // --------------- Effect count of the resolver ----------------------

  /** Splitting the first key off an order splits it off the promoted or the flushed keys. */
  lemma DecisionCons<E>(keys: Keymap<E>, order: seq<KeyCode>, ev: KeyEvent)
    requires order != []
    requires Distinct(order)
    requires AllPending(keys, order)
    ensures var x, tl := order[0], Members(order[1..]);
            && x !in Promoted(keys, tl, ev) && x !in Flushed(keys, tl, ev)
            && Promoted(keys, Members(order), ev) == (if IsWaitingOver(keys[x], ev) then {x} else {}) + Promoted(keys, tl, ev)
            && Flushed(keys, Members(order), ev) == (if IsWaitingOver(keys[x], ev) then {} else {x}) + Flushed(keys, tl, ev)
  {
    MembersCons(order);
  }

  lemma {:induction false} ChunksCount<E>(keys: Keymap<E>, order: seq<KeyCode>, ev: KeyEvent)
    requires Distinct(order)
    requires AllPending(keys, order)
    ensures |Chunks(keys, order, ev)| == |Promoted(keys, Members(order), ev)| + 2 * |Flushed(keys, Members(order), ev)|
    decreases |order|
  {
    if order == [] {
      assert Promoted(keys, Members(order), ev) == {};
      assert Flushed(keys, Members(order), ev) == {};
    } else {
      ChunksCount(keys, order[1..], ev);
      DecisionCons(keys, order, ev);
    }
  }

  /**
   Every waiting key is either promoted or flushed and never both, and the
   resolver emits one effect per promoted key and two per flushed key.
   */
  lemma ResolverEffectCount<E>(waiting: set<KeyCode>, keys: Keymap<E>, ev: KeyEvent, order: seq<KeyCode>)
    requires ResolverReady(waiting, keys)
    requires Enumerates(order, waiting)
    ensures Promoted(keys, waiting, ev) + Flushed(keys, waiting, ev) == waiting
    ensures Promoted(keys, waiting, ev) * Flushed(keys, waiting, ev) == {}
    ensures |ProcessNonTapHoldKey(waiting, keys, ev, order).0.Emitted()|
            == |Promoted(keys, waiting, ev)| + 2 * |Flushed(keys, waiting, ev)|
  {
    ChunksCount(keys, order, ev);
    assert Members(order) == waiting;
  }

  // --------------- Iteration order of the waiting set ----------------------

  lemma AllPendingAppend<E>(keys: Keymap<E>, a: seq<KeyCode>, b: seq<KeyCode>)
    requires AllPending(keys, a + b)
    ensures AllPending(keys, a) && AllPending(keys, b)
  {
    var ab := a + b;
    assert forall i | 0 <= i < |a| :: ab[i] == a[i];
    assert forall i | 0 <= i < |b| :: ab[|a| + i] == b[i];
  }

  lemma {:induction false} ChunksAppend<E>(keys: Keymap<E>, a: seq<KeyCode>, b: seq<KeyCode>, ev: KeyEvent)
    requires AllPending(keys, a + b)
    ensures AllPending(keys, a) && AllPending(keys, b)
    ensures Chunks(keys, a + b, ev) == Chunks(keys, a, ev) + Chunks(keys, b, ev)
    decreases |a|
  {
    AllPendingAppend(keys, a, b);
    if a == [] {
      assert a + b == b;
    } else {
      var ab := a + b;
      assert ab[0] == a[0];
      assert ab[1..] == a[1..] + b;
      ChunksAppend(keys, a[1..], b, ev);
    }
  }

  /** Taking the entry at `j` out of a distinct order leaves a distinct order of the other members. */
  lemma RemoveAtMembers(o: seq<KeyCode>, j: nat)
    requires Distinct(o)
    requires j < |o|
    ensures Distinct(o[..j] + o[j + 1..])
    ensures Members(o[..j] + o[j + 1..]) == Members(o) - {o[j]}
  {
    var rest := o[..j] + o[j + 1..];
    assert forall i | 0 <= i < |rest| :: rest[i] == if i < j then o[i] else o[i + 1];
    assert forall k :: k in o <==> k in o[..j] || k == o[j] || k in o[j + 1..] by {
      assert o == o[..j] + [o[j]] + o[j + 1..];
    }
  }

  lemma AllPendingSplit<E>(keys: Keymap<E>, o: seq<KeyCode>, j: nat)
    requires AllPending(keys, o)
    requires j < |o|
    ensures AllPending(keys, [o[j]] + o[j + 1..])
    ensures AllPending(keys, o[..j] + o[j + 1..])
  {
    var tail := [o[j]] + o[j + 1..];
    assert forall i | 0 <= i < |tail| :: tail[i] == o[j + i];
    var rest := o[..j] + o[j + 1..];
    assert forall i | 0 <= i < |rest| :: rest[i] == if i < j then o[i] else o[i + 1];
  }

  /** Taking the key at `j` out of an order takes its chunk out of the effects. */
  lemma RemoveAt<E>(keys: Keymap<E>, o: seq<KeyCode>, j: nat, ev: KeyEvent)
    requires AllPending(keys, o)
    requires j < |o|
    ensures AllPending(keys, o[..j] + o[j + 1..])
    ensures multiset(Chunks(keys, o, ev)) == multiset(Chunk(keys[o[j]], ev)) + multiset(Chunks(keys, o[..j] + o[j + 1..], ev))
  {
    var x, pre, post := o[j], o[..j], o[j + 1..];
    assert o == pre + ([x] + post);
    AllPendingSplit(keys, o, j);
    ChunksAppend(keys, pre, [x] + post, ev);
    assert ([x] + post)[1..] == post;
    assert Chunks(keys, [x] + post, ev) == Chunk(keys[x], ev) + Chunks(keys, post, ev);
    ChunksAppend(keys, pre, post, ev);
  }

  lemma {:induction false} ChunksPermutation<E>(keys: Keymap<E>, o1: seq<KeyCode>, o2: seq<KeyCode>, ev: KeyEvent)
    requires Distinct(o1) && Distinct(o2)
    requires AllPending(keys, o1) && AllPending(keys, o2)
    requires Members(o1) == Members(o2)
    ensures multiset(Chunks(keys, o1, ev)) == multiset(Chunks(keys, o2, ev))
    decreases |o1|
  {
    if o1 == [] {
      DistinctCard(o2);
      assert Members(o1) == {};
    } else {
      var x := o1[0];
      MembersCons(o1);
      assert x in Members(o2);
      var j :| 0 <= j < |o2| && o2[j] == x;
      RemoveAtMembers(o2, j);
      RemoveAt(keys, o2, j, ev);
      ChunksPermutation(keys, o1[1..], o2[..j] + o2[j + 1..], ev);
    }
  }

  /** The keymap after the resolver: every waiting key settled, every other key as it was. */
  function SettledKeymap<E>(waiting: set<KeyCode>, keys: Keymap<E>, ev: KeyEvent): Keymap<E>
    requires ResolverReady(waiting, keys)
  {
    map k | k in keys :: if k in waiting then Settle(keys[k], ev) else keys[k]
  }

  /** The resolver's keymap is the settled keymap, whatever the iteration order. */
  lemma ResolverKeymap<E>(waiting: set<KeyCode>, keys: Keymap<E>, ev: KeyEvent, order: seq<KeyCode>)
    requires ResolverReady(waiting, keys)
    requires Enumerates(order, waiting)
    ensures ProcessNonTapHoldKey(waiting, keys, ev, order).1 == SettledKeymap(waiting, keys, ev)
  {
    var r := ProcessNonTapHoldKey(waiting, keys, ev, order).1;
    var m := SettledKeymap(waiting, keys, ev);
    assert forall k | k in keys :: r[k] == m[k];
  }

  /**
   The iteration order of the waiting set does not matter up to the order of
   the effects: any two iteration orders give the same keymap, the same stop
   flag and the same effects, each the same number of times.
   */
  lemma ResolverOrderIndependent<E>(waiting: set<KeyCode>, keys: Keymap<E>, ev: KeyEvent, o1: seq<KeyCode>, o2: seq<KeyCode>)
    requires ResolverReady(waiting, keys)
    requires Enumerates(o1, waiting) && Enumerates(o2, waiting)
    ensures var r1, r2 := ProcessNonTapHoldKey(waiting, keys, ev, o1), ProcessNonTapHoldKey(waiting, keys, ev, o2);
            && r1.1 == r2.1
            && r1.0.stopProcessing == r2.0.stopProcessing
            && multiset(r1.0.Emitted()) == multiset(r2.0.Emitted())
  {
    assert Members(o1) == waiting == Members(o2);
    ChunksPermutation(keys, o1, o2, ev);
    ResolverKeymap(waiting, keys, ev, o1);
    ResolverKeymap(waiting, keys, ev, o2);
  }

  // --------------- Multi-step behaviour of one key ----------------------

  /** A repeat of a tap-hold key changes nothing, emits nothing and is consumed, in every state. */
  lemma RepeatIsDropped<E>(waiting: set<KeyCode>, keys: Keymap<E>, ev: KeyEvent, order: seq<KeyCode>)
    requires ev.code in keys && keys[ev.code].action.TapHold? && keys[ev.code].state.KsTapHold?
    requires ev.value == Repeat
    ensures Dispatchable(waiting, keys, ev, order)
    ensures ProcessTapHold(waiting, keys, ev, order) == Outcome(Empty(STOP), waiting, keys)
  {
    var r := ProcessTapHold(waiting, keys, ev, order);
    assert r.keys == keys;
  }

  /**
   A press then a release of an idle tap-hold key: the press is consumed with
   no effect, the release emits the tap effect's press and release, and the
   keymap is back where it started. The key stays in the waiting set.
   */
  lemma TapCycle<E>(waiting: set<KeyCode>, keys: Keymap<E>, a: KeyCode, t0: TimeVal, t1: TimeVal, order: seq<KeyCode>)
    requires a in keys && keys[a].action.TapHold? && keys[a].state == KsTapHold(ThIdle)
    ensures var s1 := ProcessTapHold(waiting, keys, KeyEvent(a, Press, t0), order);
            && s1.out == Empty(STOP)
            && s1.waiting == waiting + {a}
            && s1.keys[a].state == KsTapHold(ThWaiting(t0))
            && Dispatchable(s1.waiting, s1.keys, KeyEvent(a, Release, t1), order)
            && var s2 := ProcessTapHold(s1.waiting, s1.keys, KeyEvent(a, Release, t1), order);
               && s2.out.stopProcessing == STOP
               && s2.out.Emitted() == [TapHoldEffect(keys[a].action.tapFx, Press), TapHoldEffect(keys[a].action.tapFx, Release)]
               && s2.waiting == waiting + {a}
               && s2.keys == keys
  {
    var s1 := ProcessTapHold(waiting, keys, KeyEvent(a, Press, t0), order);
    var s2 := ProcessTapHold(s1.waiting, s1.keys, KeyEvent(a, Release, t1), order);
    assert s2.keys == keys;
  }

  /**
   A second identical press/release cycle of a tap-hold key gives the same
   outputs and ends in the same state as the first.
   */
  lemma TapCycleRepeatable<E>(waiting: set<KeyCode>, keys: Keymap<E>, a: KeyCode, t0: TimeVal, t1: TimeVal, order: seq<KeyCode>)
    requires a in keys && keys[a].action.TapHold? && keys[a].state == KsTapHold(ThIdle)
    ensures var p1 := ProcessTapHold(waiting, keys, KeyEvent(a, Press, t0), order);
            var q1 := ProcessTapHold(p1.waiting, p1.keys, KeyEvent(a, Release, t1), order);
            var p2 := ProcessTapHold(q1.waiting, q1.keys, KeyEvent(a, Press, t0), order);
            Dispatchable(p2.waiting, p2.keys, KeyEvent(a, Release, t1), order) &&
            var q2 := ProcessTapHold(p2.waiting, p2.keys, KeyEvent(a, Release, t1), order);
            && p2.out == p1.out
            && q2.out == q1.out
            && q2.waiting == q1.waiting
            && q2.keys == q1.keys
  {
    TapCycle(waiting, keys, a, t0, t1, order);
    var p1 := ProcessTapHold(waiting, keys, KeyEvent(a, Press, t0), order);
    var q1 := ProcessTapHold(p1.waiting, p1.keys, KeyEvent(a, Release, t1), order);
    TapCycle(q1.waiting, q1.keys, a, t0, t1, order);
    assert q1.waiting + {a} == q1.waiting;
  }

  /**
   A held key's release emits only the hold effect's release and makes the
   key idle again; the waiting set and every other key are untouched.
   */
  lemma HoldRelease<E>(waiting: set<KeyCode>, keys: Keymap<E>, a: KeyCode, t: TimeVal, order: seq<KeyCode>)
    requires a in keys && keys[a].action.TapHold? && keys[a].state == KsTapHold(ThHolding)
    ensures Dispatchable(waiting, keys, KeyEvent(a, Release, t), order)
    ensures var r := ProcessTapHold(waiting, keys, KeyEvent(a, Release, t), order);
            && r.out == New(STOP, keys[a].action.holdFx, Release)
            && r.waiting == waiting
            && r.keys == keys[a := keys[a].(state := KsTapHold(ThIdle))]
  {
  }

  // --------------- The waiting set is never shrunk ----------------------

  /**
   After a tap (press then release) the key stays in the waiting set although
   it is idle again, so the waiting set is no longer ready for the resolver:
   the next event of a key that is not tap-hold cannot be dispatched (the
   source panics extracting the wait's timestamp).
   */
  lemma TapLeavesStaleKey<E>(waiting: set<KeyCode>, keys: Keymap<E>, a: KeyCode, t0: TimeVal, t1: TimeVal, order: seq<KeyCode>, ev: KeyEvent)
    requires a in keys && keys[a].action.TapHold? && keys[a].state == KsTapHold(ThIdle)
    requires ev.code in keys && keys[ev.code].action.Simple?
    ensures var s1 := ProcessTapHold(waiting, keys, KeyEvent(a, Press, t0), order);
            var s2 := ProcessTapHold(s1.waiting, s1.keys, KeyEvent(a, Release, t1), order);
            && a in s2.waiting
            && s2.keys[a].state == KsTapHold(ThIdle)
            && !ResolverReady(s2.waiting, s2.keys)
            && !Dispatchable(s2.waiting, s2.keys, ev, order)
  {
    TapCycle(waiting, keys, a, t0, t1, order);
  }

  /**
   The resolver settles every waiting key but keeps the set, so after it has
   run on a nonempty set, the set is no longer ready for the resolver.
   */
  lemma ResolverLeavesStaleKeys<E>(waiting: set<KeyCode>, keys: Keymap<E>, ev: KeyEvent, order: seq<KeyCode>)
    requires ev.code in keys && keys[ev.code].action.Simple?
    requires Dispatchable(waiting, keys, ev, order)
    requires waiting != {}
    ensures var r := ProcessTapHold(waiting, keys, ev, order);
            r.waiting == waiting && !ResolverReady(r.waiting, r.keys)
  {
    var r := ProcessTapHold(waiting, keys, ev, order);
    var k :| k in waiting;
    assert !Pending(r.keys[k]);
  }

  // --------------- The wait-over test ----------------------

  /** The elapsed time between two timestamps in microseconds, with the carry between fields. */
  function ElapsedMicros(start: TimeVal, now: TimeVal): int {
    (now.sec - start.sec) * 1000000 + (now.usec - start.usec)
  }

  /** A timestamp whose microseconds field is in range. */
  predicate Normalized(t: TimeVal) {
    0 <= t.usec < 1000000
  }

  function WaitingSince<E>(action: Action<E>, start: TimeVal): MergedKey<E> {
    MergedKey(action, KsTapHold(ThWaiting(start)))
  }

  /** Within one second the test is exactly "more than the wait period has elapsed"; the period itself is not enough. */
  lemma WaitOverWithinSecond<E>(action: Action<E>, start: TimeVal, ev: KeyEvent)
    requires ev.time.sec == start.sec
    ensures IsWaitingOver(WaitingSince(action, start), ev) <==> ElapsedMicros(start, ev.time) > TAP_HOLD_WAIT_PERIOD
    ensures ElapsedMicros(start, ev.time) == TAP_HOLD_WAIT_PERIOD ==> !IsWaitingOver(WaitingSince(action, start), ev)
  {
  }

  /**
   With in-range microsecond fields, the test never misses an expired wait: more than the wait period elapsed
   implies the wait is over.
   */
  lemma ExpiredWaitIsOver<E>(action: Action<E>, start: TimeVal, ev: KeyEvent)
    requires Normalized(start) && Normalized(ev.time)
    requires ElapsedMicros(start, ev.time) > TAP_HOLD_WAIT_PERIOD
    ensures IsWaitingOver(WaitingSince(action, start), ev)
  {
  }

  /**
   Because there is no carry, crossing a second boundary is always over: a key
   pressed one microsecond before a whole second and interrupted one
   microsecond later is promoted to hold.
   */
  lemma OverAcrossSecondBoundary<E>(action: Action<E>)
    ensures var start, ev := TimeVal(0, 999999), KeyEvent(0, Press, TimeVal(1, 0));
            && Normalized(start) && Normalized(ev.time)
            && ElapsedMicros(start, ev.time) == 1
            && IsWaitingOver(WaitingSince(action, start), ev)
  {
  }

  /**
   A negative difference in seconds is not rejected: the microsecond fields
   alone decide, so an event stamped a whole second BEFORE the press can still
   count as over.
   */
  lemma OverWithClockGoingBack<E>(action: Action<E>)
    ensures var start, ev := TimeVal(5, 0), KeyEvent(0, Press, TimeVal(4, 300000));
            && ElapsedMicros(start, ev.time) < 0
            && IsWaitingOver(WaitingSince(action, start), ev)
  {
  }
}
