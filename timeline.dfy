/** Play/stop handling: which host event subscriptions the extension holds. */
module Timeline {

  /** The timeline event kinds the handler distinguishes; `Other` stands for
      every remaining kind (pause, current-time change, ...). */
  datatype TimelineEvent = Play | Stop | Other

  /** Whether the per-frame update subscription and the timeline subscription are held. */
  datatype Subscriptions = Subscriptions(update: bool, timeline: bool)

  /** The timeline handler as a function of the subscriptions; it specifies
      the method `SwingingSticksExtension.OnTimelineEvent`. PLAY (re)creates
      the update subscription, STOP drops both subscriptions, any other event
      changes nothing. */
  function HandleEvent(s: Subscriptions, ev: TimelineEvent): Subscriptions
  {
    match ev
    case Play => s.(update := true)
    case Stop => Subscriptions(false, false)
    case Other => s
  }

  /** The host delivers a timeline event to the handler only while the timeline subscription is held. */
  function Deliver(s: Subscriptions, ev: TimelineEvent): Subscriptions
  {
    if s.timeline then HandleEvent(s, ev) else s
  }

  function DeliverAll(s: Subscriptions, evs: seq<TimelineEvent>): Subscriptions
    decreases |evs|
  {
    if evs == [] then s else DeliverAll(Deliver(s, evs[0]), evs[1..])
  }

  /** Without the timeline subscription no event reaches the handler, so nothing changes. */
  lemma {:induction false} UnsubscribedIsInert(s: Subscriptions, evs: seq<TimelineEvent>)
    requires !s.timeline
    ensures DeliverAll(s, evs) == s
    decreases |evs|
  {
    if evs != [] {
      UnsubscribedIsInert(s, evs[1..]);
    }
  }

  /** After a STOP no event brings the update subscription back: no further ticks reach the update. */
  lemma StopIsFinal(s: Subscriptions, evs: seq<TimelineEvent>)
    requires s.timeline
    ensures DeliverAll(s, [Stop] + evs) == Subscriptions(false, false)
  {
    assert ([Stop] + evs)[1..] == evs;
    UnsubscribedIsInert(Subscriptions(false, false), evs);
  }

  /** Starting from a held timeline subscription: once any STOP arrives both
      subscriptions are gone; otherwise the timeline subscription stays and the
      update subscription is held iff it was already or some PLAY arrived. */
  lemma {:induction false} DeliverAllOutcome(s: Subscriptions, evs: seq<TimelineEvent>)
    requires s.timeline
    ensures DeliverAll(s, evs)
         == if Stop in evs then Subscriptions(false, false)
            else Subscriptions(s.update || Play in evs, true)
    decreases |evs|
  {
    if evs != [] {
      var next := Deliver(s, evs[0]);
      assert evs == [evs[0]] + evs[1..];
      if evs[0] == Stop {
        UnsubscribedIsInert(next, evs[1..]);
      } else {
        DeliverAllOutcome(next, evs[1..]);
      }
    }
  }
}
