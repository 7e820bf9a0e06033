/** Scroll-triggered animation of the `.animate-on-scroll` elements. With an
    IntersectionObserver each element is marked `animated` on its first
    intersecting entry and then unobserved; without one, a throttled scroll
    handler marks every element whose box is in the viewport. Either way the
    `animated` flag is only ever added. */
module ScrollAnimations {

  const ThrottleTime: int := 100

  /** An element's bounding box, as far as the viewport test uses it. */
  datatype Rect = Rect(top: int, bottom: int)

  /** One IntersectionObserver entry: the index of its target element among
      the animatable ones, and whether it is intersecting. */
  datatype Entry = Entry(target: nat, isIntersecting: bool)

  /** `window.innerHeight || document.documentElement.clientHeight`. */
  function ViewportHeight(innerHeight: int, clientHeight: int): int
  {
    if innerHeight != 0 then innerHeight else clientHeight
  }

  /** `isElementInViewport`: the top lies within 90% of the viewport height
      (`top <= 0.9 * height`, with both sides multiplied by ten) and the
      bottom has not left through the top. */
  predicate InViewport(r: Rect, height: int)
  {
    10 * r.top <= 9 * height && r.bottom >= 0
  }

  /** The fallback check over all elements: each one in the viewport gets
      `animated`, the others keep what they had. */
  function MarkVisible(animated: seq<bool>, rects: seq<Rect>, height: int): (r: seq<bool>)
    requires |rects| == |animated|
    ensures |r| == |animated|
    ensures forall i :: 0 <= i < |r| ==> (r[i] <==> animated[i] || InViewport(rects[i], height))
    decreases |animated|
  {
    if animated == [] then []
    else [animated[0] || InViewport(rects[0], height)] + MarkVisible(animated[1..], rects[1..], height)
  }

  /** Some intersecting entry of the batch targets element `i`. */
  predicate Intersected(entries: seq<Entry>, i: nat)
  {
    exists j :: 0 <= j < |entries| && entries[j].target == i && entries[j].isIntersecting
  }

  predicate TargetsIn(entries: seq<Entry>, n: nat)
  {
    forall j :: 0 <= j < |entries| ==> entries[j].target < n
  }

  /** Processes an observer batch in order, setting the target's flag to `v`
      for every intersecting entry: `v == true` gives the `animated` flags,
      `v == false` the observed ones. */
  function SetIntersected(flags: seq<bool>, entries: seq<Entry>, v: bool): (r: seq<bool>)
    requires TargetsIn(entries, |flags|)
    ensures |r| == |flags|
    ensures forall i :: 0 <= i < |r| ==> r[i] == if Intersected(entries, i) then v else flags[i]
    decreases |entries|
  {
    if entries == [] then flags
    else
      var e := entries[0];
      var flags' := if e.isIntersecting then flags[e.target := v] else flags;
      var r := SetIntersected(flags', entries[1..], v);
      assert forall i :: Intersected(entries, i) <==>
        (e.isIntersecting && e.target == i) || Intersected(entries[1..], i) by {
        forall i
          ensures Intersected(entries, i) ==> (e.isIntersecting && e.target == i) || Intersected(entries[1..], i)
        {
          if Intersected(entries, i) {
            var j :| 0 <= j < |entries| && entries[j].target == i && entries[j].isIntersecting;
            if j > 0 {
              assert entries[1..][j - 1] == entries[j];
            }
          }
        }
        forall i | Intersected(entries[1..], i)
          ensures Intersected(entries, i)
        {
          var j :| 0 <= j < |entries[1..]| && entries[1..][j].target == i && entries[1..][j].isIntersecting;
          assert entries[j + 1] == entries[1..][j];
        }
        if e.isIntersecting {
          assert Intersected(entries, e.target) by { assert entries[0] == e; }
        }
      }
      r
  }

  /** One more entry of the batch adds its target, if it is intersecting. */
  lemma IntersectedExtend(entries: seq<Entry>, j: nat)
    requires j < |entries|
    ensures forall i :: Intersected(entries[..j + 1], i) <==>
      Intersected(entries[..j], i) || (entries[j].isIntersecting && entries[j].target == i)
  {
    forall i
      ensures Intersected(entries[..j + 1], i) <==>
        Intersected(entries[..j], i) || (entries[j].isIntersecting && entries[j].target == i)
    {
      if Intersected(entries[..j + 1], i) {
        var k :| 0 <= k < j + 1 && entries[..j + 1][k].target == i && entries[..j + 1][k].isIntersecting;
        if k < j {
          assert entries[..j][k] == entries[..j + 1][k];
        }
      }
      if Intersected(entries[..j], i) {
        var k :| 0 <= k < j && entries[..j][k].target == i && entries[..j][k].isIntersecting;
        assert entries[..j + 1][k] == entries[..j][k];
      }
      if entries[j].isIntersecting && entries[j].target == i {
        assert entries[..j + 1][j] == entries[j];
      }
    }
  }

  /** What is monotone about `animated`: every flag set before is set after. */
  predicate Grows(before: seq<bool>, after: seq<bool>)
  {
    |before| == |after| && forall i :: 0 <= i < |before| && before[i] ==> after[i]
  }

  /** The fallback check never removes `animated`, and running it again on
      the same geometry changes nothing more. */
  lemma MarkVisibleOnlyAdds(animated: seq<bool>, rects: seq<Rect>, height: int)
    requires |rects| == |animated|
    ensures Grows(animated, MarkVisible(animated, rects, height))
    ensures MarkVisible(MarkVisible(animated, rects, height), rects, height) == MarkVisible(animated, rects, height)
  {
  }

  /** After an observer batch, an element is animated iff it was before or it
      had an intersecting entry, and it is still observed iff it was before
      and had none: no element is ever unobserved without being marked. */
  lemma ObserverMarksThenUnobserves(animated: seq<bool>, observing: seq<bool>, entries: seq<Entry>)
    requires |observing| == |animated| && TargetsIn(entries, |animated|)
    ensures Grows(animated, SetIntersected(animated, entries, true))
    ensures forall i :: 0 <= i < |animated| ==>
      !SetIntersected(observing, entries, false)[i] ==>
        (!observing[i] || SetIntersected(animated, entries, true)[i])
  {
  }

  /** The animation state over time: the two flag lists and the fallback's
      `lastAnimationTime`. */
  datatype AnimState = AnimState(animated: seq<bool>, observing: seq<bool>, lastAnimationTime: int)

  datatype AnimEvent =
    | ScrollCheck(now: int, rects: seq<Rect>, innerHeight: int, clientHeight: int)
    | Intersections(entries: seq<Entry>)

  /** `handleScrollAnimation` at time `now`. */
  function HandleScroll(s: AnimState, now: int, rects: seq<Rect>, height: int): AnimState
    requires |rects| == |s.animated|
  {
    if now - s.lastAnimationTime > ThrottleTime then
      s.(animated := MarkVisible(s.animated, rects, height), lastAnimationTime := now)
    else s
  }

  /** The observer callback on one batch of entries. */
  function HandleEntries(s: AnimState, entries: seq<Entry>): AnimState
    requires |s.observing| == |s.animated| && TargetsIn(entries, |s.animated|)
  {
    s.(animated := SetIntersected(s.animated, entries, true),
       observing := SetIntersected(s.observing, entries, false))
  }

  /** The events whose element references stay within the animatable list. */
  predicate Fits(e: AnimEvent, n: nat)
  {
    match e
    case ScrollCheck(_, rects, _, _) => |rects| == n
    case Intersections(entries) => TargetsIn(entries, n)
  }

  function Step(s: AnimState, e: AnimEvent): (r: AnimState)
    requires |s.observing| == |s.animated| && Fits(e, |s.animated|)
    ensures |r.animated| == |r.observing| == |s.animated|
  {
    match e
    case ScrollCheck(now, rects, ih, ch) => HandleScroll(s, now, rects, ViewportHeight(ih, ch))
    case Intersections(entries) => HandleEntries(s, entries)
  }

  function Run(s: AnimState, events: seq<AnimEvent>): AnimState
    requires |s.observing| == |s.animated|
    requires forall k :: 0 <= k < |events| ==> Fits(events[k], |s.animated|)
    decreases |events|
  {
    if events == [] then s
    else
      var s' := Step(s, events[0]);
      assert forall k :: 0 <= k < |events[1..]| ==> events[1..][k] == events[k + 1];
      Run(s', events[1..])
  }

  /** The fallback check runs, and moves `lastAnimationTime`, only when more
      than 100 ms have passed since the last run. */
  lemma ScrollCheckIsThrottled(s: AnimState, now: int, rects: seq<Rect>, height: int)
    requires |rects| == |s.animated|
    ensures now - s.lastAnimationTime <= ThrottleTime ==> HandleScroll(s, now, rects, height) == s
    ensures now - s.lastAnimationTime > ThrottleTime ==>
      HandleScroll(s, now, rects, height).lastAnimationTime == now &&
      forall i :: 0 <= i < |rects| && InViewport(rects[i], height) ==>
        HandleScroll(s, now, rects, height).animated[i]
  {
  }

  /** Whatever mixture of scroll checks and observer batches happens, an
      element marked `animated` stays marked: the animation never replays. */
  lemma {:induction false} AnimatedNeverCleared(s: AnimState, events: seq<AnimEvent>)
    requires |s.observing| == |s.animated|
    requires forall k :: 0 <= k < |events| ==> Fits(events[k], |s.animated|)
    ensures Grows(s.animated, Run(s, events).animated)
    decreases |events|
  {
    if events != [] {
      var s' := Step(s, events[0]);
      assert Grows(s.animated, s'.animated) by {
        match events[0]
        case ScrollCheck(now, rects, ih, ch) =>
          MarkVisibleOnlyAdds(s.animated, rects, ViewportHeight(ih, ch));
        case Intersections(entries) =>
      }
      assert forall k :: 0 <= k < |events[1..]| ==> events[1..][k] == events[k + 1];
      AnimatedNeverCleared(s', events[1..]);
    }
  }

  /** The fallback drops a scroll event and never makes up for it. The check
      at load (1000 ms) finds the element below the fold. A scroll 50 ms later
      brings it into the viewport, but that check is dropped, and the
      element stays unmarked until the next scroll event. */
  lemma DroppedScrollLeavesElementUnmarked()
    ensures InViewport(Rect(0, 10), 100) && !InViewport(Rect(200, 300), 100)
    ensures Run(AnimState([false], [false], 0),
                [ScrollCheck(1000, [Rect(200, 300)], 100, 0), ScrollCheck(1050, [Rect(0, 10)], 100, 0)])
            == AnimState([false], [false], 1000)
  {
    var s1 := Step(AnimState([false], [false], 0), ScrollCheck(1000, [Rect(200, 300)], 100, 0));
    assert s1 == AnimState([false], [false], 1000);
  }

  /** The animatable elements and the handler's closure, updated in place. */
  class Animator {
    /** `'IntersectionObserver' in window`, decided once. */
    const useObserver: bool
    /** The `animated` class of each `.animate-on-scroll` element. */
    const animated: array<bool>
    /** Whether the observer still observes each element. */
    const observing: array<bool>
    var lastAnimationTime: int

    ghost predicate Valid()
      reads this, animated, observing
    {
      animated != observing && animated.Length == observing.Length &&
      (useObserver ==> forall i :: 0 <= i < animated.Length && !observing[i] ==> animated[i]) &&
      (!useObserver ==> forall i :: 0 <= i < observing.Length ==> !observing[i])
    }

    function State(): AnimState
      reads this, animated, observing
    {
      AnimState(animated[..], observing[..], lastAnimationTime)
    }

    /** `initAnimations` for `n` unmarked elements, before the fallback's
      first check: the observer observes them all, the fallback none. */
    constructor (n: nat, useObserver: bool)
      ensures Valid() && fresh(animated) && fresh(observing)
      ensures this.useObserver == useObserver
      ensures State() == AnimState(seq(n, _ => false), seq(n, _ => useObserver), 0)
    {
      this.useObserver := useObserver;
      animated := new bool[n](_ => false);
      observing := new bool[n](_ => useObserver);
      lastAnimationTime := 0;
    }

    /** `handleScrollAnimation`, registered as the scroll listener (and run
        once at start) only when there is no observer. */
    method HandleScrollAnimation(now: int, rects: seq<Rect>, innerHeight: int, clientHeight: int)
      returns (ran: bool)
      requires Valid() && !useObserver && |rects| == animated.Length
      modifies this, animated
      ensures Valid()
      ensures ran == (now - old(lastAnimationTime) > ThrottleTime)
      ensures State() == HandleScroll(old(State()), now, rects, ViewportHeight(innerHeight, clientHeight))
    {
      ran := now - lastAnimationTime > ThrottleTime;
      if ran {
        var height := ViewportHeight(innerHeight, clientHeight);
        for i := 0 to animated.Length
          invariant forall k :: 0 <= k < i ==> animated[k] == (old(animated[k]) || InViewport(rects[k], height))
          invariant forall k :: i <= k < animated.Length ==> animated[k] == old(animated[k])
        {
          if InViewport(rects[i], height) && !animated[i] {
            animated[i] := true;
          }
        }
        lastAnimationTime := now;
        assert animated[..] == MarkVisible(old(animated[..]), rects, height);
      }
    }

    /** The observer callback on one batch of entries. */
    method OnIntersection(entries: seq<Entry>)
      requires Valid() && useObserver && TargetsIn(entries, animated.Length)
      modifies animated, observing
      ensures Valid()
      ensures State() == HandleEntries(old(State()), entries)
    {
      for j := 0 to |entries|
        invariant forall i :: 0 <= i < animated.Length ==>
          animated[i] == if Intersected(entries[..j], i) then true else old(animated[i])
        invariant forall i :: 0 <= i < observing.Length ==>
          observing[i] == if Intersected(entries[..j], i) then false else old(observing[i])
      {
        var e := entries[j];
        if e.isIntersecting {
          animated[e.target] := true;
          observing[e.target] := false;
        }
        IntersectedExtend(entries, j);
      }
      assert entries[..|entries|] == entries;
      assert animated[..] == SetIntersected(old(animated[..]), entries, true);
      assert observing[..] == SetIntersected(old(observing[..]), entries, false);
    }
  }
}
