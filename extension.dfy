/** The extension object: the state `SwingingSticksExtension` keeps between
    host callbacks, and the callbacks that update it in place. Host reads
    (the trigger's target list, the actor's angular velocity, the event kind)
    are parameters; the actuator attributes and subscriptions are fields. */
module Extension {
  import opened PathMatch
  import opened TriggerDiff
  import opened ForceControl
  import opened Timeline

  class SwingingSticksExtension {
    /** `set_trigger` has run: the actor, force actuator and trigger handles exist. */
    var configured: bool
    /** The trigger's target list retained from the previous tick. */
    var triggerCollisions: seq<Path>
    /** The force actuator's enabled flag and force vector. */
    var forceEnabled: bool
    var force: Vec3
    /** Whether the per-frame update subscription and the timeline subscription are held. */
    var updateSubscribed: bool
    var timelineSubscribed: bool

    /** A subscription is only ever taken after the handles it uses exist. */
    ghost predicate Valid()
      reads this
    {
      (updateSubscribed || timelineSubscribed) ==> configured
    }

    function Actuator(): ForceState
      reads this
    {
      ForceState(forceEnabled, force)
    }

    function Subs(): Subscriptions
      reads this
    {
      Subscriptions(updateSubscribed, timelineSubscribed)
    }

    /** Startup: no update subscription, nothing configured yet. */
    constructor ()
      ensures Valid() && !configured
      ensures !updateSubscribed && !timelineSubscribed
    {
      configured := false;
      triggerCollisions := [];
      forceEnabled := false;
      force := Vec3(0.0, 0.0, 0.0);
      updateSubscribed := false;
      timelineSubscribed := false;
    }

    /** The reset and subscribe steps of `set_trigger`. The force prim is
        deleted and defined anew, so the actuator afterwards holds the fresh
        prim's attribute values `actuator`; the retained trigger list is
        emptied and the timeline subscription is taken. */
    method SetTrigger(actuator: ForceState)
      modifies this
      ensures Valid() && configured
      ensures triggerCollisions == []
      ensures Actuator() == actuator
      ensures timelineSubscribed && updateSubscribed == old(updateSubscribed)
    {
      forceEnabled := actuator.enabled;
      force := actuator.force;
      configured := true;
      triggerCollisions := [];
      timelineSubscribed := true;
    }

    /** `_on_timeline_event`: runs only while the timeline subscription is held. */
    method OnTimelineEvent(ev: TimelineEvent)
      requires Valid() && timelineSubscribed
      modifies this`updateSubscribed, this`timelineSubscribed
      ensures Valid()
      ensures Subs() == HandleEvent(old(Subs()), ev)
      ensures ev.Play? ==> updateSubscribed && timelineSubscribed
      ensures ev.Stop? ==> !updateSubscribed && !timelineSubscribed
      ensures ev.Other? ==> Subs() == old(Subs())
    {
      if ev == Play {
        updateSubscribed := true;
      } else if ev == Stop {
        updateSubscribed := false;
        timelineSubscribed := false;
      }
    }

    /** `_on_update`: runs only while the update subscription is held. Returns
        the colliders that entered or left since the last tick, retains the
        current list, and applies the threshold rule once per triggered
        collider whose path names the actor. */
    method OnUpdate(current: seq<Path>, xSpeed: real) returns (changed: set<Path>)
      requires Valid() && updateSubscribed
      modifies this`triggerCollisions, this`forceEnabled, this`force
      ensures Valid()
      ensures changed == SymmetricDifference(current, old(triggerCollisions))
      ensures triggerCollisions == current
      ensures Actuator() == ApplyColliders(old(Actuator()), current, xSpeed)
      ensures Actuator() == if AnyActor(current) then Actuate(old(Actuator()), Decide(xSpeed))
                            else old(Actuator())
    {
      changed := SymmetricDifference(current, triggerCollisions);
      triggerCollisions := current;
      if |current| > 0 {
        var i := 0;
        while i < |current|
          invariant 0 <= i <= |current|
          invariant triggerCollisions == current
          invariant Actuator() == ApplyColliders(old(Actuator()), current[..i], xSpeed)
        {
          assert current[..i + 1][..i] == current[..i];
          if IsActor(current[i]) {
            match Decide(xSpeed)
            case Release =>
              forceEnabled := false;
            case Push(f) =>
              forceEnabled := true;
              force := f;
          }
          i := i + 1;
        }
        assert current[..i] == current;
      }
      ApplyCollidersOutcome(old(Actuator()), current, xSpeed);
    }
  }

  /** Setup, play, one tick with the actor inside the trigger, stop: the first
      tick reports every triggered collider as changed, and after the stop
      neither callback is subscribed any more. */
  method PlayStopScenario(actuator: ForceState)
  {
    var ext := new SwingingSticksExtension();
    ext.SetTrigger(actuator);
    ext.OnTimelineEvent(Play);
    assert ext.updateSubscribed;
    var actor := "/World/swing/swing/" + ActorToken;
    ActorPathRecognised("/World/swing/swing/", "");
    assert actor + "" == actor;
    var changed := ext.OnUpdate([actor], 50.0);
    assert changed == {actor};
    assert AnyActor([actor]);
    assert ext.Actuator() == ForceState(true, Vec3(-1000.0, 0.0, 0.0));
    ext.OnTimelineEvent(Stop);
    assert !ext.updateSubscribed && !ext.timelineSubscribed;
  }
}
