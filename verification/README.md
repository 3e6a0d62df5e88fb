# Tap-hold engine of ktrl, in Dafny

This project models `TapHoldMgr`, the tap-or-hold engine of the ktrl keyboard
remapper. For every key configured as `Action::TapHold(tap, hold)`, the engine
decides whether a press-release is a *tap* or a *hold*. It has no timer: a
pending decision is settled only when some other event arrives, using that
event's timestamp as the clock.

The model has three parts.

- **Per-key automaton** (`TapHold.HandleIdle`, `HandleWaiting`, `HandleHolding`,
  `ProcessTapHoldKey`). A tap-hold key's own press moves it from `ThIdle` to
  `ThWaiting(t)`, and its own release moves it back to `ThIdle`, from either
  `ThWaiting` or `ThHolding`. Only the resolver moves a key from `ThWaiting`
  to `ThHolding`. Every such event is consumed (`STOP`), and repeats are
  dropped.
- **Waiting-set resolver** (`TapHold.IsWaitingOver`, `ResolveWaiting`,
  `ProcessNonTapHoldKey`). On the event of any key that is not tap-hold, each
  key in the waiting set is either promoted to hold or flushed as a tap, and
  the event itself is passed on (`CONTINUE`). Another tap-hold key's event
  leaves waiting keys as they are.
- **Dispatcher** (`TapHold.ProcessTapHold`). It routes on the event key's
  configured action.

Each step is a pure function. It takes the waiting set, the keymap
(`map<KeyCode, MergedKey<E>>`) and the event, and returns the output
`TapHoldOut`, the new waiting set and the new keymap. The effect type `E` is a
type parameter, because effects are only carried through.

The source's `assert!(false)` branches and `inner!` panics are preconditions,
never ordinary results:

- a press while waiting or holding;
- a release while idle;
- a tap-hold key whose state slot is not `KsTapHold`;
- a waiting-set member that is not a waiting tap-hold key.

`HashSet` iteration order is a parameter `order`. It is required to list the
waiting set once each. Properties of the resolver are stated per key, as
counts, or up to the order of the effects (`ResolverOrderIndependent`).

Two behaviours of the code are modelled as written.

- **The waiting set is never shrunk.** Only an idle key's press touches the
  set, and it inserts. Neither a release while waiting nor the resolver removes
  the key. Bookkeeping where a key leaves the set when it leaves the waiting state
  would keep "in the set ⇔ waiting". The code does not keep it, so it is a
  precondition of the resolver and is not claimed to be preserved. See
  Findings: `TapHoldFixed.ProcessTapHold` is the same dispatcher with that
  bookkeeping, and it is proved to keep the invariant.
- **The wait test has no carry.** Seconds and microseconds are subtracted
  separately. Any positive second difference is over. Otherwise the microsecond
  difference alone decides, even when the second difference is negative.
  Within one second, exactly 200000 µs is not over. Crossing a second boundary
  after 1 µs is over (`OverAcrossSecondBoundary`). With in-range microsecond
  fields, an elapsed time above the wait period is always seen as over
  (`ExpiredWaitIsOver`).

Files: `types.dfy` (data model and `TapHoldOut`), `tap_hold.dfy` (the engine),
`properties.dfy` (lemmas over several steps, keys or iteration orders),
`scenarios.dfy` (concrete runs, including the source's unit tests), and
`fixed.dfy` (the corrected waiting-set bookkeeping).

## Model

| member | source | states |
|---|---|---|
| TapHoldTypes.Insert | src/actions/tap_hold.rs:82-88 | appending keeps the stop flag, never leaves `None`, and puts the new effect after every effect already present |
| TapHold.HandleHolding | src/actions/tap_hold.rs:113-141 | a held key's release makes it idle and emits only the hold effect's release; a repeat changes nothing; the waiting set is untouched; a press is excluded (assertion failure) |
| TapHold.HandleWaiting | src/actions/tap_hold.rs:143-173 | a waiting key's release is a tap whatever time has passed: idle, tap press then tap release; the key is NOT removed from the waiting set; a press is excluded |
| TapHold.HandleIdle | src/actions/tap_hold.rs:175-209 | an idle key's press starts waiting at the event's timestamp and adds the key to the waiting set, with no effect and the event consumed; a release is excluded |
| TapHold.ProcessTapHoldKey | src/actions/tap_hold.rs:212-227 | a tap-hold key's own event is always consumed; a repeat changes nothing; the waiting set only grows, and only by that key; the next state is waiting exactly after an idle press or a waiting repeat |
| TapHold.IsWaitingOver | src/actions/tap_hold.rs:231-245 | over whenever the seconds advanced; otherwise, including when the seconds went back, over exactly when the microseconds advanced by more than 200000 |
| TapHold.ResolveWaiting | src/actions/tap_hold.rs:252-278 | the loop settles each listed key to hold or idle and appends its effects after the output so far; unlisted keys keep their entries; the output stays `None` only if nothing was listed |
| TapHold.ProcessNonTapHoldKey | src/actions/tap_hold.rs:247-281 | an ordinary key's event is passed on; each waiting key becomes held if its wait is over and idle otherwise, with its action kept; other keys are unchanged; `None` exactly when the set is empty |
| TapHold.ProcessTapHold | src/actions/tap_hold.rs:286-295 | the event is consumed exactly when its key is tap-hold; an ordinary key with an empty waiting set gives `empty(CONTINUE)` and changes nothing; the waiting set never shrinks; actions and keymap domain are kept |
| TapHoldProperties.KeyStepBalance | src/actions/tap_hold.rs:113-227 | a key's own step emits presses and releases that balance for every effect, except one hold release exactly when a held key becomes idle |
| TapHoldProperties.ResolverBalance | src/actions/tap_hold.rs:247-281 | after the resolver, presses minus releases of each effect equal the number of promoted keys holding that effect: one outstanding hold per promotion, and every flushed tap is balanced |
| TapHoldProperties.ResolverEffectCount | src/actions/tap_hold.rs:247-281 | the waiting set splits into promoted and flushed keys, never both; the resolver emits one effect per promoted key and two per flushed key |
| TapHoldProperties.ResolverOrderIndependent | src/actions/tap_hold.rs:252-278 | any two iteration orders of the waiting set give the same keymap, the same stop flag, and the same effects with the same multiplicities |
| TapHoldProperties.RepeatIsDropped | src/actions/tap_hold.rs:136-207 | a repeat of a tap-hold key, in any state, is consumed, emits nothing and changes neither the waiting set nor the keymap |
| TapHoldProperties.TapCycle | src/actions/tap_hold.rs:143-209 | press then release of an idle key: nothing, then tap press and tap release; the keymap is back where it started and the key stays in the waiting set |
| TapHoldProperties.TapCycleRepeatable | src/actions/tap_hold.rs:344-354 | a second identical press/release cycle gives the same outputs and ends in the same state as the first |
| TapHoldProperties.HoldRelease | src/actions/tap_hold.rs:129-133 | a held key's release emits exactly the hold effect's release and makes only that key idle |
| TapHoldProperties.TapLeavesStaleKey | src/actions/tap_hold.rs:158-165 | after a tap the key is idle but still in the waiting set, so no ordinary key's event can be dispatched next |
| TapHoldProperties.ResolverLeavesStaleKeys | src/actions/tap_hold.rs:261-276 | after the resolver runs on a nonempty set, the set is unchanged but no longer ready for the resolver |
| TapHoldProperties.WaitOverWithinSecond | src/actions/tap_hold.rs:235-244 | within one second the test is "elapsed time strictly above 200000 µs"; exactly 200000 µs is not over |
| TapHoldProperties.ExpiredWaitIsOver | src/actions/tap_hold.rs:235-244 | with in-range microsecond fields, an elapsed time above the wait period is always seen as over |
| TapHoldProperties.OverAcrossSecondBoundary | src/actions/tap_hold.rs:235-244 | a wait from (0 s, 999999 µs) is over at (1 s, 0 µs), after 1 µs |
| TapHoldProperties.OverWithClockGoingBack | src/actions/tap_hold.rs:235-244 | a wait from (5 s, 0 µs) is over at (4 s, 300000 µs), an earlier time |
| TapHoldScenarios.SkippedKey | src/actions/tap_hold.rs:315-323 | an ordinary key's press and release with nothing waiting both give `empty(CONTINUE)` |
| TapHoldScenarios.QuickTaps | src/actions/tap_hold.rs:325-355 | two press/release cycles of A, 100 µs apart, each give `empty(STOP)` and then a tap of A |
| TapHoldScenarios.HoldByInterruption | src/actions/tap_hold.rs:247-295 | A pressed, B pressed one second later: a left-ctrl press is emitted, B is passed on and A is held; A's release then releases left-ctrl |
| TapHoldScenarios.InterruptedBeforeWaitPeriod | src/actions/tap_hold.rs:266-277 | B pressed 150 ms after A: A is flushed as a tap and becomes idle |
| TapHoldScenarios.Rollover | src/actions/tap_hold.rs:252-278 | A and S pressed before B: A (250 ms) is promoted and S (150 ms) is tapped, each on its own wait; both stay in the waiting set |
| TapHoldScenarios.TapThenOtherKey | src/actions/tap_hold.rs:231-233 | after a tap of A, a press of B cannot be dispatched in any iteration order, because A is idle but still waiting-listed |
| TapHoldFixed.ProcessTapHold | src/actions/tap_hold.rs:286-295 | same outputs and keymap as the source's dispatcher, but the waiting set always holds exactly the waiting keys, so the resolver's precondition carries over to the next event |

## Left out

- Event decoding is left out: `get_keycode_from_event`, `KeyValue::from` and the panic on a non-key event (lines 101-108, 287-288). An event is a key code, a key value and a timestamp.
- The keymap store (`LayersManager::get_mut`, layers, `init`) is not part of this model. It is a map that must contain every dispatched key and every waiting key.
- Action kinds other than tap-hold are collapsed into `Simple`, and key-state kinds other than tap-hold into `KsOther`. The engine only tells tap-hold from the rest.
- The resolver's `assert!(false)` on a waiting key whose action is not tap-hold (lines 259, 270) is part of the `Pending` precondition.
- `Effect` is a type parameter. The model never inspects its contents.
- `TapHoldMgr::new` is the empty set. `TapHoldEffect::new` is the datatype constructor. `TapHoldOut::new`, `new_multiple` and `empty` (lines 61-80) are the record constructors `TapHoldTypes.New`, `NewMultiple` and `Empty`: one effect, a given list, and `None`, each with the given stop flag.
- `dbg!` output and panic-message formatting are left out.
- What happens downstream is left out: injecting the effects, and handling the original event after `CONTINUE`.
- TapHold.IsWaitingOver: does not model wrap-around of the i64 subtractions at lines 235-236, because timestamps are unbounded integers here. Differences of real event timestamps are far inside the i64 range.
- The "in the waiting set ⇔ waiting" invariant is not claimed for the code as written, because the code does not keep it. It is proved only for `TapHoldFixed.ProcessTapHold`.

## Findings

| source | as written | input that shows it | evidently intended | confidence | as-written member | corrected member |
|---|---|---|---|---|---|---|
| src/actions/tap_hold.rs:158-165 | a release while waiting makes the key idle but leaves it in the waiting set | press A (tap-hold), release A, then press ordinary key B: the resolver visits A, which is idle, and the timestamp extraction at line 233 panics | a key leaves the waiting set when it leaves the waiting state | high; not executed | TapHoldProperties.TapLeavesStaleKey | TapHoldFixed.ProcessTapHold |
| src/actions/tap_hold.rs:261-276 | the resolver settles every waiting key to hold or idle but keeps all of them in the set | press A (tap-hold), press ordinary key B one second later (A is held), press B again: the resolver visits A, which is held, and line 233 panics | the resolver empties the waiting set | high; not executed | TapHoldProperties.ResolverLeavesStaleKeys | TapHoldFixed.ProcessTapHold |

Every other member keeps the code as written, so that it describes the
program's actual behaviour. The corrected dispatcher reuses the same
automaton and resolver, and differs only in the waiting set it returns.
