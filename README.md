# Swinging sticks: the per-frame force controller

This project models the one piece of logic the swinging-sticks Omniverse
extension has of its own. That piece is the controller in
`SwingingSticksExtension`. A trigger volume reports which colliders overlap
it. Each frame the extension compares that list with the list it kept from the
previous frame, and then keeps the new list. When the stick `stick0` is among
the triggered colliders, a bang-bang rule drives the force actuator on the
stick: above 92 in x angular speed the force is switched off, and otherwise a
force of 1000 along x pushes against the spin. Timeline PLAY and STOP events
take and drop the per-frame update subscription. STOP also drops the timeline
subscription itself. The `set_trigger` button empties the kept list and takes
the timeline subscription.

Modules:
- `PathMatch` (`path_match.dfy`): the Python substring test `"stick0" in path`, proved equal to "some window of the path is the token".
- `TriggerDiff` (`trigger_diff.dfy`): the symmetric difference of the current and the retained trigger lists.
- `ForceControl` (`force_control.dfy`): the threshold test and sign choice (`Decide`), writing a decision to the actuator (`Actuate`), and the loop over the triggered colliders as a function (`ApplyColliders`). It also holds the lemmas giving the loop's overall effect.
- `Timeline` (`timeline.dfy`): the subscription flags, the timeline handler as a function (`HandleEvent`), and event delivery by the host, which hands an event to the handler only while the timeline subscription is held.
- `Extension` (`extension.dfy`): the class `SwingingSticksExtension`. Its fields are the retained list, the actuator's flag and vector, and the two subscriptions, and its methods update them in place. `OnUpdate` keeps the source's loop, and the loop is proved against `ApplyColliders`.

The host reads become parameters. These are the trigger's target list, the
actor's x angular speed and the timeline event kind. The source reads the
angular-velocity attribute again in each loop iteration, but every read is of
the same attribute within one tick, so one parameter stands for all of them.
Before `set_trigger` runs, the retained list and the timeline subscription do
not exist in the source. The model marks this with `configured`. `Valid()`
states that no subscription is held before `configured` is true. Each callback
requires its own subscription, because the host only calls a callback while
its subscription is held.

## Model

| member | source | states |
|---|---|---|
| PathMatch.ContainsIff | swinging-sticks-exts/exts/swinging.sticks/swinging/sticks/extension.py:106 | the substring scan returns true exactly when some window of the path equals the token |
| PathMatch.ActorPathRecognised | swinging-sticks-exts/exts/swinging.sticks/swinging/sticks/extension.py:106 | any path that contains `stick0` anywhere, such as the actor's own `<default>/swing/swing/stick0`, counts as the actor |
| TriggerDiff.SymmetricDifference | swinging-sticks-exts/exts/swinging.sticks/swinging/sticks/extension.py:95-96 | a collider is in the difference exactly when it is in one of the current and the retained lists but not in both |
| TriggerDiff.SameListNoChange | swinging-sticks-exts/exts/swinging.sticks/swinging/sticks/extension.py:95-97 | observing the same list on two ticks in a row reports no change the second time |
| TriggerDiff.FromEmptyIsWholeSet | swinging-sticks-exts/exts/swinging.sticks/swinging/sticks/extension.py:69 | against the empty list that `set_trigger` leaves, every current collider counts as changed |
| TriggerDiff.DependsOnMembershipOnly | swinging-sticks-exts/exts/swinging.sticks/swinging/sticks/extension.py:95 | the difference depends only on which colliders each list holds, not on their order or repetitions |
| ForceControl.Decide | swinging-sticks-exts/exts/swinging.sticks/swinging/sticks/extension.py:111-116 | the force is released exactly when the absolute x speed is strictly above 92. Otherwise the force lies along x with magnitude 1000, and it is negative exactly when the x speed is positive, so it opposes the spin and points +x at rest |
| ForceControl.ApplyCollidersOutcome | swinging-sticks-exts/exts/swinging.sticks/swinging/sticks/extension.py:99-117 | the loop over the triggered colliders writes the threshold decision once if any collider names the actor, and otherwise leaves the actuator untouched |
| ForceControl.NoActorLeavesForce | swinging-sticks-exts/exts/swinging.sticks/swinging/sticks/extension.py:99-106 | with no triggered collider, or none whose path names the actor, the flag and the vector are unchanged |
| ForceControl.FastSpinReleases | swinging-sticks-exts/exts/swinging.sticks/swinging/sticks/extension.py:110-112 | with the actor triggered and the absolute x speed above 92, the force is disabled and its vector is not written |
| ForceControl.SlowSpinPushes | swinging-sticks-exts/exts/swinging.sticks/swinging/sticks/extension.py:113-117 | with the actor triggered and the absolute x speed at most 92, the force is enabled at (-1000,0,0) if x > 0 and at (1000,0,0) otherwise |
| ForceControl.OrderIrrelevant | swinging-sticks-exts/exts/swinging.sticks/swinging/sticks/extension.py:101-117 | two triggered lists holding the same paths, in any order and with any repeats, give the same final actuator state |
| Timeline.UnsubscribedIsInert | swinging-sticks-exts/exts/swinging.sticks/swinging/sticks/extension.py:73-83 | without the timeline subscription, no sequence of timeline events changes either subscription |
| Timeline.StopIsFinal | swinging-sticks-exts/exts/swinging.sticks/swinging/sticks/extension.py:81-83 | after a STOP, both subscriptions stay dropped whatever timeline events follow, so no further tick reaches the update until `set_trigger` takes the timeline subscription again |
| Timeline.DeliverAllOutcome | swinging-sticks-exts/exts/swinging.sticks/swinging/sticks/extension.py:76-83 | from a held timeline subscription, any STOP in the event sequence drops both subscriptions. Otherwise the timeline subscription stays, and the update subscription is held exactly when it already was or some PLAY arrived |
| Extension.SwingingSticksExtension.constructor | swinging-sticks-exts/exts/swinging.sticks/swinging/sticks/extension.py:19-28 | at startup no subscription is held and nothing is configured |
| Extension.SwingingSticksExtension.SetTrigger | swinging-sticks-exts/exts/swinging.sticks/swinging/sticks/extension.py:43-73 | the retained list becomes empty and the timeline subscription is taken. The actuator holds the freshly defined force prim's values, and the update subscription is unchanged |
| Extension.SwingingSticksExtension.OnTimelineEvent | swinging-sticks-exts/exts/swinging.sticks/swinging/sticks/extension.py:76-83 | PLAY takes the update subscription. STOP drops the update and timeline subscriptions. Any other event changes neither |
| Extension.SwingingSticksExtension.OnUpdate | swinging-sticks-exts/exts/swinging.sticks/swinging/sticks/extension.py:86-117 | returns the symmetric difference against the retained list and retains exactly the current list. The actuator becomes the loop's fold over the current list, which equals the threshold decision on the old state if the actor is triggered and the old state otherwise. The difference plays no part in that result |

## Left out

- The UI window and its button (`on_startup`), and the prints in `on_startup`, `set_trigger` and `on_shutdown`: these are presentation only.
- Scene construction in `set_trigger`: finding the default prim and the actor, deleting and defining the force Xform and the trigger cube, and applying the PhysX and USD schemas. These are calls into USD and PhysX. The only effect kept is that the actuator afterwards holds the new force prim's attribute values, which `SetTrigger` takes as a parameter.
- Callback delivery by the event streams: only the subscription flags are modelled. `OnTimelineEvent` and `OnUpdate` require the subscription they are delivered through. `Timeline.Deliver` models the host's rule that an event reaches the handler only while that subscription is held.
- Extension.SwingingSticksExtension.OnUpdate: takes one x angular speed per tick and does not model reading the velocity attribute again in each loop iteration, because within a tick those reads return the same value.
- The 32-bit float `Gf.Vec3f` representation and IEEE semantics of `abs` and `>`: speeds and forces are `real`, so NaN and infinities are not modelled. With NaN the source would enable a +1000 force.
- A missing angular-velocity value: the source would raise on indexing it, and the model always has a value.
- The unused `dt` payload and the commented-out debug drawing and recolouring code.
- STOP does not discard the retained trigger list. Only `set_trigger` empties it, and the model follows the code on this.
