/**
 Concrete runs of the engine: the source's unit tests and interleavings of
 tap-hold keys with other keys, with effects instantiated as key codes (an
 effect that emits a key).
 */
module TapHoldScenarios {
  import opened TapHoldTypes
  import opened TapHold

  const KEY_LEFTCTRL: KeyCode := 29
  const KEY_A: KeyCode := 30
  const KEY_S: KeyCode := 31
  const KEY_B: KeyCode := 48
  const KEY_LEFTALT: KeyCode := 56

  function TapHoldEntry(tap: KeyCode, hold: KeyCode): MergedKey<KeyCode> {
    MergedKey(TapHold(tap, hold), KsTapHold(ThIdle))
  }

  /** A base layer: A taps A and holds left-ctrl, S taps S and holds left-alt, B is an ordinary key. */
  function BaseLayer(): Keymap<KeyCode> {
    map[KEY_A := TapHoldEntry(KEY_A, KEY_LEFTCTRL),
        KEY_S := TapHoldEntry(KEY_S, KEY_LEFTALT),
        KEY_B := MergedKey(Simple(KEY_B), KsOther)]
  }

  /** An ordinary key's press and release pass through untouched while nothing waits. */
  lemma SkippedKey(t: TimeVal)
    ensures var keys := map[KEY_A := MergedKey(Simple(KEY_A), KsOther)];
            && ProcessTapHold({}, keys, KeyEvent(KEY_A, Press, t), []) == Outcome(Empty(CONTINUE), {}, keys)
            && ProcessTapHold({}, keys, KeyEvent(KEY_A, Release, t), []) == Outcome(Empty(CONTINUE), {}, keys)
  {
  }

  /** Two quick press/release cycles of A each emit a tap of A on the release. */
  lemma QuickTaps()
    ensures var keys := BaseLayer();
            var press, release := KeyEvent(KEY_A, Press, TimeVal(0, 0)), KeyEvent(KEY_A, Release, TimeVal(0, 100));
            var tap := NewMultiple(STOP, [TapHoldEffect(KEY_A, Press), TapHoldEffect(KEY_A, Release)]);
            var p1 := ProcessTapHold({}, keys, press, []);
            var r1 := ProcessTapHold(p1.waiting, p1.keys, release, []);
            var p2 := ProcessTapHold(r1.waiting, r1.keys, press, []);
            var r2 := ProcessTapHold(p2.waiting, p2.keys, release, []);
            && p1.out == Empty(STOP) && r1.out == tap
            && p2.out == Empty(STOP) && r2.out == tap
            && r2.keys == keys && r2.waiting == {KEY_A}
  {
    var keys := BaseLayer();
    var press, release := KeyEvent(KEY_A, Press, TimeVal(0, 0)), KeyEvent(KEY_A, Release, TimeVal(0, 100));
    var p1 := ProcessTapHold({}, keys, press, []);
    var r1 := ProcessTapHold(p1.waiting, p1.keys, release, []);
    assert r1.keys == keys;
    var p2 := ProcessTapHold(r1.waiting, r1.keys, press, []);
    var r2 := ProcessTapHold(p2.waiting, p2.keys, release, []);
    assert r2.keys == keys;
  }

  /**
   A pressed, then B pressed a whole second later: A is promoted and its hold
   effect pressed, B's event is passed on; A's release then releases the hold.
   */
  lemma HoldByInterruption()
    ensures var keys := BaseLayer();
            var p := ProcessTapHold({}, keys, KeyEvent(KEY_A, Press, TimeVal(0, 0)), []);
            var b := ProcessTapHold(p.waiting, p.keys, KeyEvent(KEY_B, Press, TimeVal(1, 0)), [KEY_A]);
            var r := ProcessTapHold(b.waiting, b.keys, KeyEvent(KEY_A, Release, TimeVal(1, 500)), []);
            && b.out == NewMultiple(CONTINUE, [TapHoldEffect(KEY_LEFTCTRL, Press)])
            && b.keys[KEY_A].state == KsTapHold(ThHolding)
            && r.out == New(STOP, KEY_LEFTCTRL, Release)
            && r.keys == keys
  {
    var keys := BaseLayer();
    var p := ProcessTapHold({}, keys, KeyEvent(KEY_A, Press, TimeVal(0, 0)), []);
    var evB := KeyEvent(KEY_B, Press, TimeVal(1, 0));
    assert p.waiting == {KEY_A};
    assert [KEY_A][1..] == [];
    assert Chunks(p.keys, [KEY_A], evB) == [TapHoldEffect(KEY_LEFTCTRL, Press)];
    var b := ProcessTapHold(p.waiting, p.keys, evB, [KEY_A]);
    var r := ProcessTapHold(b.waiting, b.keys, KeyEvent(KEY_A, Release, TimeVal(1, 500)), []);
    assert r.keys == keys;
  }

  /** B pressed 150 ms after A, within the same second: A is flushed as a tap, not promoted. */
  lemma InterruptedBeforeWaitPeriod()
    ensures var keys := BaseLayer();
            var p := ProcessTapHold({}, keys, KeyEvent(KEY_A, Press, TimeVal(0, 0)), []);
            var b := ProcessTapHold(p.waiting, p.keys, KeyEvent(KEY_B, Press, TimeVal(0, 150000)), [KEY_A]);
            && b.out == NewMultiple(CONTINUE, [TapHoldEffect(KEY_A, Press), TapHoldEffect(KEY_A, Release)])
            && b.keys == keys
  {
    var keys := BaseLayer();
    var p := ProcessTapHold({}, keys, KeyEvent(KEY_A, Press, TimeVal(0, 0)), []);
    var evB := KeyEvent(KEY_B, Press, TimeVal(0, 150000));
    assert p.waiting == {KEY_A};
    assert [KEY_A][1..] == [];
    assert Chunks(p.keys, [KEY_A], evB) == [TapHoldEffect(KEY_A, Press), TapHoldEffect(KEY_A, Release)];
    var b := ProcessTapHold(p.waiting, p.keys, evB, [KEY_A]);
    assert b.keys == keys;
  }

  /**
   A and S both pressed before B: each is decided on its own wait. A (250 ms)
   is promoted, S (150 ms) is flushed as a tap; both end idle or held, and
   both stay in the waiting set.
   */
  lemma Rollover()
    ensures var keys := BaseLayer();
            var a := ProcessTapHold({}, keys, KeyEvent(KEY_A, Press, TimeVal(0, 0)), []);
            var s := ProcessTapHold(a.waiting, a.keys, KeyEvent(KEY_S, Press, TimeVal(0, 100000)), []);
            var b := ProcessTapHold(s.waiting, s.keys, KeyEvent(KEY_B, Press, TimeVal(0, 250000)), [KEY_A, KEY_S]);
            && b.out == NewMultiple(CONTINUE, [TapHoldEffect(KEY_LEFTCTRL, Press), TapHoldEffect(KEY_S, Press), TapHoldEffect(KEY_S, Release)])
            && b.keys[KEY_A].state == KsTapHold(ThHolding)
            && b.keys[KEY_S].state == KsTapHold(ThIdle)
            && b.waiting == {KEY_A, KEY_S}
  {
    var keys := BaseLayer();
    var a := ProcessTapHold({}, keys, KeyEvent(KEY_A, Press, TimeVal(0, 0)), []);
    var s := ProcessTapHold(a.waiting, a.keys, KeyEvent(KEY_S, Press, TimeVal(0, 100000)), []);
    var evB := KeyEvent(KEY_B, Press, TimeVal(0, 250000));
    assert s.waiting == {KEY_A, KEY_S};
    assert [KEY_A, KEY_S][1..] == [KEY_S];
    assert [KEY_S][1..] == [];
    assert Chunks(s.keys, [KEY_S], evB) == [TapHoldEffect(KEY_S, Press), TapHoldEffect(KEY_S, Release)];
    assert Chunks(s.keys, [KEY_A, KEY_S], evB)
        == [TapHoldEffect(KEY_LEFTCTRL, Press), TapHoldEffect(KEY_S, Press), TapHoldEffect(KEY_S, Release)];
  }

  /**
   A tap of A followed by a press of B: A is still in the waiting set but idle,
   so B's event cannot be dispatched in any iteration order.
   */
  lemma TapThenOtherKey(order: seq<KeyCode>)
    ensures var keys := BaseLayer();
            var p := ProcessTapHold({}, keys, KeyEvent(KEY_A, Press, TimeVal(0, 0)), []);
            var r := ProcessTapHold(p.waiting, p.keys, KeyEvent(KEY_A, Release, TimeVal(0, 100)), []);
            && r.waiting == {KEY_A}
            && !Dispatchable(r.waiting, r.keys, KeyEvent(KEY_B, Press, TimeVal(0, 200)), order)
  {
    var keys := BaseLayer();
    var p := ProcessTapHold({}, keys, KeyEvent(KEY_A, Press, TimeVal(0, 0)), []);
    var r := ProcessTapHold(p.waiting, p.keys, KeyEvent(KEY_A, Release, TimeVal(0, 100)), []);
    assert r.keys[KEY_A].state == KsTapHold(ThIdle);
  }
}
