/** The header's `scrolled` style, recomputed from the scroll position at most
    once per animation frame and no more often than every 100 ms. */
module HeaderScroll {
  import opened Common

  const ThrottleTime: int := 100
  const ScrolledThreshold: real := 50.0

  /** The listener's closure state (`lastScrollTime`, `ticking`), the frame
      callback waiting to run together with the `now` it captured, and whether
      the header carries `scrolled`. Times are integer milliseconds. */
  datatype HeaderState = HeaderState(lastScrollTime: int, ticking: bool, frame: Option<int>, scrolled: bool)

  datatype HeaderEvent =
    | Scroll(now: int)       // a `scroll` event at `Date.now()`
    | Frame(scrollY: real)    // the browser runs the next animation frame

  /** `ticking` is set exactly while a frame callback is waiting. */
  predicate Valid(s: HeaderState)
  {
    s.ticking <==> s.frame.Some?
  }

  function Initial(): HeaderState
  {
    HeaderState(0, false, None, false)
  }

  /** Whether a scroll event at `now` asks for an animation frame. */
  predicate Schedules(s: HeaderState, now: int)
  {
    !s.ticking && now - s.lastScrollTime > ThrottleTime
  }

  function OnScroll(s: HeaderState, now: int): HeaderState
  {
    if Schedules(s, now) then s.(ticking := true, frame := Some(now)) else s
  }

  /** The frame callback, if one is waiting: sets or clears `scrolled`, then
      records the time of the scroll event that scheduled it. */
  function OnFrame(s: HeaderState, scrollY: real): HeaderState
  {
    match s.frame
    case None => s
    case Some(t) =>
      s.(scrolled := scrollY > ScrolledThreshold, lastScrollTime := t, ticking := false, frame := None)
  }

  function Step(s: HeaderState, e: HeaderEvent): HeaderState
  {
    match e
    case Scroll(now) => OnScroll(s, now)
    case Frame(y) => OnFrame(s, y)
  }

  function Run(s: HeaderState, events: seq<HeaderEvent>): HeaderState
    decreases |events|
  {
    if events == [] then s else Run(Step(s, events[0]), events[1..])
  }

  /** The times of the scroll events, in order, that scheduled a frame. */
  function ScheduledTimes(s: HeaderState, events: seq<HeaderEvent>): seq<int>
    decreases |events|
  {
    if events == [] then []
    else
      (if events[0].Scroll? && Schedules(s, events[0].now) then [events[0].now] else [])
      + ScheduledTimes(Step(s, events[0]), events[1..])
  }

  /** The time the next scheduling is measured against: the waiting
      callback's time if there is one, otherwise `lastScrollTime`. */
  function Anchor(s: HeaderState): int
  {
    if s.frame.Some? then s.frame.value else s.lastScrollTime
  }

  /** Each time lies more than the throttle interval after the one before,
      the first after `anchor`. */
  predicate Spaced(anchor: int, ts: seq<int>)
    decreases |ts|
  {
    ts == [] || (ts[0] - anchor > ThrottleTime && Spaced(ts[0], ts[1..]))
  }

  /** A scroll event that schedules a frame raises `ticking`, and while it is
      raised every further scroll event leaves the state as it is. */
  lemma ScrollSchedulesAtMostOnce(s: HeaderState, now: int, later: int)
    requires Valid(s)
    ensures Valid(OnScroll(s, now))
    ensures Schedules(s, now) ==> OnScroll(s, now).ticking && OnScroll(s, now).frame == Some(now)
    ensures !Schedules(s, now) ==> OnScroll(s, now) == s
    ensures Schedules(s, now) ==> !Schedules(OnScroll(s, now), later)
  {
  }

  /** The frame callback sets `scrolled` exactly when `scrollY > 50`, lowers
      `ticking` and stores the `now` of the event that scheduled it. */
  lemma FrameUpdatesHeader(s: HeaderState, scrollY: real)
    requires Valid(s) && s.ticking
    ensures OnFrame(s, scrollY).scrolled <==> scrollY > ScrolledThreshold
    ensures !OnFrame(s, scrollY).ticking && Valid(OnFrame(s, scrollY))
    ensures OnFrame(s, scrollY).lastScrollTime == s.frame.value
  {
  }

  /** A frame with no callback waiting changes nothing. */
  lemma IdleFrameChangesNothing(s: HeaderState, scrollY: real)
    requires Valid(s) && !s.ticking
    ensures OnFrame(s, scrollY) == s
  {
  }

  /** Along any sequence of events, the scroll events that schedule a frame
      are each more than 100 ms later than the one before, the first more
      than 100 ms after the anchor. */
  lemma {:induction false} ScheduledTimesAreSpaced(s: HeaderState, events: seq<HeaderEvent>)
    requires Valid(s)
    ensures Valid(Run(s, events))
    ensures Spaced(Anchor(s), ScheduledTimes(s, events))
    decreases |events|
  {
    if events != [] {
      var e, s' := events[0], Step(s, events[0]);
      ScheduledTimesAreSpaced(s', events[1..]);
      if e.Scroll? && Schedules(s, e.now) {
        assert ScheduledTimes(s, events) == [e.now] + ScheduledTimes(s', events[1..]);
        assert Anchor(s') == e.now;
      } else {
        assert ScheduledTimes(s, events) == ScheduledTimes(s', events[1..]);
        assert Anchor(s') == Anchor(s);
      }
    }
  }

  lemma {:induction false} SpacedPairwise(anchor: int, ts: seq<int>)
    requires Spaced(anchor, ts)
    ensures ts != [] ==> ts[0] - anchor > ThrottleTime
    ensures forall i :: 0 < i < |ts| ==> ts[i] - ts[i - 1] > ThrottleTime
    decreases |ts|
  {
    if ts != [] {
      SpacedPairwise(ts[0], ts[1..]);
      forall i | 0 < i < |ts|
        ensures ts[i] - ts[i - 1] > ThrottleTime
      {
        if i > 1 {
          assert ts[i] == ts[1..][i - 1] && ts[i - 1] == ts[1..][i - 2];
        }
      }
    }
  }

  /** From page load, consecutive header recomputations are scheduled more
      than 100 ms apart, whatever the order and timing of scroll events and
      frames. */
  lemma ThrottleFromLoad(events: seq<HeaderEvent>)
    ensures var ts := ScheduledTimes(Initial(), events);
      (ts != [] ==> ts[0] > ThrottleTime) &&
      forall i :: 0 < i < |ts| ==> ts[i] - ts[i - 1] > ThrottleTime
  {
    ScheduledTimesAreSpaced(Initial(), events);
    SpacedPairwise(0, ScheduledTimes(Initial(), events));
  }

  lemma {:induction false} RunAppend(s: HeaderState, a: seq<HeaderEvent>, b: seq<HeaderEvent>)
    ensures Run(s, a + b) == Run(Run(s, a), b)
    decreases |a|
  {
    if a == [] {
      assert a + b == b;
    } else {
      assert (a + b)[0] == a[0] && (a + b)[1..] == a[1..] + b;
      RunAppend(Step(s, a[0]), a[1..], b);
    }
  }

  /** With no callback waiting, animation frames alone change nothing,
      whatever the scroll offset they see. */
  lemma {:induction false} IdleFramesChangeNothing(s: HeaderState, frames: seq<HeaderEvent>)
    requires Valid(s) && !s.ticking
    requires forall k :: 0 <= k < |frames| ==> frames[k].Frame?
    ensures Run(s, frames) == s
    decreases |frames|
  {
    if frames != [] {
      IdleFrameChangesNothing(s, frames[0].scrollY);
      IdleFramesChangeNothing(s, frames[1..]);
    }
  }

  /** The throttle drops a scroll event and never makes up for it. Scrolling
      past 50 px at 1000 ms sets `scrolled`; a scroll 50 ms later, say back to
      the top, is dropped, and no frame is requested. Until the next scroll
      event arrives, the header keeps `scrolled` through any frames, even
      those that see an offset of 0. */
  lemma DroppedScrollLeavesHeaderStale(frames: seq<HeaderEvent>)
    requires forall k :: 0 <= k < |frames| ==> frames[k].Frame?
    ensures Run(Initial(), [Scroll(1000), Frame(100.0), Scroll(1050)] + frames) == HeaderState(1000, false, None, true)
  {
    var s := Run(Initial(), [Scroll(1000), Frame(100.0), Scroll(1050)]);
    assert s == HeaderState(1000, false, None, true);
    RunAppend(Initial(), [Scroll(1000), Frame(100.0), Scroll(1050)], frames);
    IdleFramesChangeNothing(s, frames);
  }

  /** The header and the listener's closure, updated in place. */
  class HeaderController {
    var lastScrollTime: int
    var ticking: bool
    /** The animation-frame callback waiting to run, with its captured `now`. */
    var frame: Option<int>
    /** Whether the header carries the `scrolled` class. */
    var scrolled: bool

    function State(): HeaderState
      reads this
    {
      HeaderState(lastScrollTime, ticking, frame, scrolled)
    }

    /** `initScrollEffects` on a page that has a header. */
    constructor ()
      ensures State() == Initial()
    {
      lastScrollTime, ticking, frame, scrolled := 0, false, None, false;
    }

    /** The `scroll` listener; `scheduled` says whether it asked for a frame. */
    method OnScrollEvent(now: int) returns (scheduled: bool)
      modifies this
      ensures scheduled == Schedules(old(State()), now)
      ensures State() == OnScroll(old(State()), now)
    {
      scheduled := !ticking && now - lastScrollTime > ThrottleTime;
      if scheduled {
        frame := Some(now);
        ticking := true;
      }
    }

    /** The browser's next animation frame, at scroll offset `scrollY`. */
    method OnAnimationFrame(scrollY: real)
      modifies this
      ensures State() == OnFrame(old(State()), scrollY)
    {
      match frame
      case None =>
      case Some(now) =>
        if scrollY > ScrolledThreshold {
          scrolled := true;
        } else {
          scrolled := false;
        }
        lastScrollTime := now;
        ticking := false;
        frame := None;
    }
  }
}
