/** The bang-bang rule that drives the force actuator on `stick0`: while the
    stick swings slowly a fixed force along x opposes its spin; once it spins
    faster than the threshold the force is switched off and it coasts. */
module ForceControl {
  import opened PathMatch

  /** Angular speed about x above which the force is released. */
  const SpeedLimit: real := 92.0
  /** Magnitude of the force applied along x. */
  const ForceMagnitude: real := 1000.0

  datatype Vec3 = Vec3(x: real, y: real, z: real)

  /** What the actuator holds: the force-enabled flag and the force vector. */
  datatype ForceState = ForceState(enabled: bool, force: Vec3)

  /** The outcome of one threshold test: switch the force off, or switch it on with a vector. */
  datatype Decision = Release | Push(force: Vec3)

  function Abs(r: real): real
  {
    if r < 0.0 then -r else r
  }

  /** The threshold test and sign choice on the x angular speed. The test is
      strict: at exactly the limit the force is still applied. */
  function Decide(xSpeed: real): (d: Decision)
    ensures d.Release? <==> Abs(xSpeed) > SpeedLimit
    ensures d.Push? ==> d.force.y == 0.0 && d.force.z == 0.0 && Abs(d.force.x) == ForceMagnitude
    ensures d.Push? ==> (d.force.x < 0.0 <==> xSpeed > 0.0)
  {
    if Abs(xSpeed) > SpeedLimit then Release
    else Push(Vec3(if xSpeed > 0.0 then -ForceMagnitude else ForceMagnitude, 0.0, 0.0))
  }

  /** Writing a decision to the actuator. Releasing only clears the flag: the
      force vector is not written. */
  function Actuate(st: ForceState, d: Decision): (r: ForceState)
    ensures d.Release? ==> r == st.(enabled := false)
    ensures d.Push? ==> r.enabled && r.force == d.force
  {
    match d
    case Release => st.(enabled := false)
    case Push(f) => ForceState(true, f)
  }

  /** The loop body for one triggered collider: colliders other than the actor change nothing. */
  function StepCollider(st: ForceState, collider: Path, xSpeed: real): ForceState
  {
    if IsActor(collider) then Actuate(st, Decide(xSpeed)) else st
  }

  /** The loop over the triggered colliders, in list order (the last one is applied last). */
  function ApplyColliders(st: ForceState, colliders: seq<Path>, xSpeed: real): ForceState
    decreases |colliders|
  {
    if colliders == [] then st
    else StepCollider(ApplyColliders(st, colliders[..|colliders| - 1], xSpeed), colliders[|colliders| - 1], xSpeed)
  }

  predicate AnyActor(colliders: seq<Path>)
  {
    exists i :: 0 <= i < |colliders| && IsActor(colliders[i])
  }

  /** Writing the same decision twice is the same as writing it once. */
  lemma ActuateIdempotent(st: ForceState, d: Decision)
    ensures Actuate(Actuate(st, d), d) == Actuate(st, d)
  {
  }

  /** The loop's overall effect: if any triggered collider is the actor the
      threshold decision is written once, otherwise the actuator is untouched.
      Neither the number of matching colliders nor their order matters. */
  lemma {:induction false} ApplyCollidersOutcome(st: ForceState, colliders: seq<Path>, xSpeed: real)
    ensures ApplyColliders(st, colliders, xSpeed)
         == if AnyActor(colliders) then Actuate(st, Decide(xSpeed)) else st
    decreases |colliders|
  {
    if colliders != [] {
      var n := |colliders|;
      var init := colliders[..n - 1];
      ApplyCollidersOutcome(st, init, xSpeed);
      ActuateIdempotent(st, Decide(xSpeed));
      if AnyActor(init) {
        var i :| 0 <= i < |init| && IsActor(init[i]);
        assert IsActor(colliders[i]);
      }
      if IsActor(colliders[n - 1]) {
        assert AnyActor(colliders);
      }
      if AnyActor(colliders) && !IsActor(colliders[n - 1]) {
        var i :| 0 <= i < n && IsActor(colliders[i]);
        assert i < n - 1 && IsActor(init[i]);
      }
    }
  }

  /** No triggered collider, or none whose path names the actor: force flag and vector stay as they were. */
  lemma NoActorLeavesForce(st: ForceState, colliders: seq<Path>, xSpeed: real)
    requires forall i :: 0 <= i < |colliders| ==> !IsActor(colliders[i])
    ensures ApplyColliders(st, colliders, xSpeed) == st
  {
    ApplyCollidersOutcome(st, colliders, xSpeed);
  }

  /** With the actor triggered and the spin above the limit, the force is
      disabled and the force vector keeps its old value. */
  lemma FastSpinReleases(st: ForceState, colliders: seq<Path>, xSpeed: real)
    requires AnyActor(colliders) && Abs(xSpeed) > SpeedLimit
    ensures ApplyColliders(st, colliders, xSpeed) == ForceState(false, st.force)
  {
    ApplyCollidersOutcome(st, colliders, xSpeed);
  }

  /** With the actor triggered and the spin at or below the limit, the force is
      enabled at 1000 along x against the spin; a stick at rest is pushed in +x. */
  lemma SlowSpinPushes(st: ForceState, colliders: seq<Path>, xSpeed: real)
    requires AnyActor(colliders) && Abs(xSpeed) <= SpeedLimit
    ensures ApplyColliders(st, colliders, xSpeed)
         == ForceState(true, Vec3(if xSpeed > 0.0 then -1000.0 else 1000.0, 0.0, 0.0))
  {
    ApplyCollidersOutcome(st, colliders, xSpeed);
  }

  /** Reordering the triggered colliders, or adding or dropping repeats of
      them, does not change the outcome: only which paths are present matters. */
  lemma OrderIrrelevant(st: ForceState, a: seq<Path>, b: seq<Path>, xSpeed: real)
    requires forall p :: p in a <==> p in b
    ensures ApplyColliders(st, a, xSpeed) == ApplyColliders(st, b, xSpeed)
  {
    ApplyCollidersOutcome(st, a, xSpeed);
    ApplyCollidersOutcome(st, b, xSpeed);
    if AnyActor(a) {
      var i :| 0 <= i < |a| && IsActor(a[i]);
      assert a[i] in b;
      var j :| 0 <= j < |b| && b[j] == a[i];
    }
    if AnyActor(b) {
      var j :| 0 <= j < |b| && IsActor(b[j]);
      assert b[j] in a;
      var i :| 0 <= i < |a| && a[i] == b[j];
    }
  }
}
